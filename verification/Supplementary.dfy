/** The compliance versions of one report: each submission adds a version through one of the
    supplementary handlers, and an obligation is created where there is something to charge. */
module Supplementary {
  import opened Prelude
  import opened Fees

  /** One tonne, below which no earned credits are issued. */
  const ONE_TONNE: Tonnes4 := 10000

  datatype RawSummary = Summary(excess: nat, credited: nat)

  /** A report is over its limit or under it, never both. */
  type Summary = s: RawSummary | s.excess == 0 || s.credited == 0 witness Summary(0, 0)

  datatype CreditStatus = NotIssued | Requested | ChangesRequired | Approved | Declined

  /** `pending` is the status "pending invoice creation"; an invoice may have no fee balance yet. */
  datatype Obligation = Obligation(fee: Cents, pending: bool, invoice: Option<Option<Cents>>)

  /** `delta` is the stored change of excess emissions; `byHand` marks a version of the manual handler,
      `manual` one that has a manual-handling record. */
  datatype Version = Version(
    summary: Summary,
    delta: int,
    superseded: bool,
    byHand: bool,
    manual: bool,
    credit: Option<CreditStatus>,
    obligation: Option<Obligation>)

  /** The versions, oldest first; `gap` if the latest submission got none. */
  datatype State = State(chain: seq<Version>, gap: bool)

  datatype Error = NoComplianceVersion | MissingObligation | MissingCredit

  const START: State := State([], false)

  /* ---------- the handlers ---------- */

  function Last(chain: seq<Version>): Version
    requires chain != []
  {
    chain[|chain| - 1]
  }

  function Charge(amount: nat, rate: Rate, early: bool): Option<Obligation> {
    if amount > 0 then Some(Obligation(Fee(amount, rate), early, None)) else None
  }

  /** A version with no record attached to it. */
  function Plain(s: Summary): Version {
    Version.Version(s, 0, false, false, false, None, None)
  }

  function FirstVersion(s: Summary, rate: Rate, early: bool): Version {
    Plain(s).(
      obligation := Charge(s.excess, rate, early),
      credit := if s.excess == 0 && s.credited >= ONE_TONNE then Some(NotIssued) else None)
  }

  /** Nothing binding has happened yet: every earlier version is superseded, and the latest has an
      obligation without an invoice or credits nobody has requested. */
  function CanSupersede(chain: seq<Version>): Result<bool, Error>
    requires chain != []
  {
    var last := Last(chain);
    if exists i | 0 <= i < |chain| - 1 :: !chain[i].superseded then Ok(false)
    else if last.summary.excess > 0 then
      match last.obligation
      case None => Err(MissingObligation)
      case Some(obligation) => Ok(obligation.pending && obligation.invoice.None?)
    else if last.summary.credited >= ONE_TONNE then
      match last.credit
      case None => Err(MissingCredit)
      case Some(status) => Ok(status.NotIssued?)
    else Ok(false)
  }

  /** The latest version gives its obligation and its credits up to the new one. */
  function Supersede(chain: seq<Version>, s: Summary, rate: Rate, early: bool): Result<seq<Version>, Error>
    requires chain != []
  {
    var last := Last(chain);
    if last.summary.excess > 0 && last.obligation.None? then Err(MissingObligation)
    else if last.summary.credited >= ONE_TONNE && last.credit.None? then Err(MissingCredit)
    else
      var given := last.(
        superseded := true,
        obligation := if last.summary.excess > 0 then None else last.obligation,
        credit := if last.summary.credited >= ONE_TONNE then None else last.credit);
      var new' := Plain(s).(
        obligation := Charge(s.excess, rate, early),
        credit := if s.credited >= ONE_TONNE then Some(NotIssued) else None);
      Ok(chain[|chain| - 1 := given] + [new'])
  }

  /** The handlers for credits, tried in turn: more credits, fewer credits, first credits. */
  function HandleCredits(chain: seq<Version>, s: Summary): Option<seq<Version>>
    requires chain != []
  {
    var last := Last(chain);
    match last.credit
    case Some(status) =>
      var new' :=
        Plain(s).(
          manual := s.credited < last.summary.credited && status.Approved?,
          credit :=
            if status.NotIssued? || (s.credited < last.summary.credited && status.Approved?) then None
            else Some(NotIssued));
      var declined :=
        if s.credited < last.summary.credited then !status.NotIssued? && !status.Approved?
        else status.Requested? || status.ChangesRequired?;
      if last.summary.credited >= ONE_TONNE && s.credited != last.summary.credited then
        Some(chain[|chain| - 1 := last.(credit := Some(if declined then Declined else status))] + [new'])
      else None
    case None =>
      if last.summary.credited < ONE_TONNE && s.credited >= ONE_TONNE
      then Some(chain + [Plain(s).(credit := Some(NotIssued))])
      else None
  }

  /** The first handler that applies; None if there is none. */
  function Handle(chain: seq<Version>, s: Summary, rate: Rate, early: bool): Option<seq<Version>>
    requires chain != []
  {
    var before := Last(chain).summary;
    var delta := s.excess - before.excess;
    if s.excess > 0 && before.excess < s.excess then
      Some(chain + [Plain(s).(delta := delta, obligation := Charge(delta, rate, early))])
    else if before.excess > 0 && s.excess < before.excess then Some(chain + [Plain(s).(delta := delta)])
    else if s == before then Some(chain + [Plain(s)])
    else HandleCredits(chain, s)
  }

  /** A submission. The latest version is looked up before anything else, which fails after a gap; a
      version with a manual-handling record is only ever followed by manual versions. */
  function Submit(st: State, s: Summary, rate: Rate, early: bool): Result<State, Error> {
    if st.chain == [] then Ok(State([FirstVersion(s, rate, early)], false))
    else if st.gap then Err(NoComplianceVersion)
    else if Last(st.chain).manual then Ok(State(st.chain + [Plain(s).(byHand := true, manual := true)], false))
    else
      match CanSupersede(st.chain)
      case Err(error) => Err(error)
      case Ok(true) =>
        (match Supersede(st.chain, s, rate, early)
         case Err(error) => Err(error)
         case Ok(chain) => Ok(State(chain, false)))
      case Ok(false) =>
        match Handle(st.chain, s, rate, early)
        case None => Ok(st.(gap := true))
        case Some(chain) => Ok(State(chain, false))
  }

  class ComplianceTables {
    const rate: Rate
    var chain: seq<Version>
    var gap: bool

    constructor (rate: Rate)
      ensures this.rate == rate && State(chain, gap) == START
    {
      this.rate, chain, gap := rate, [], false;
    }

    method SupersedeLatest(s: Summary, early: bool) returns (error: Option<Error>)
      requires chain != []
      modifies this`chain
      ensures match Supersede(old(chain), s, rate, early)
              case Err(e) => error == Some(e) && chain == old(chain)
              case Ok(after) => error == None && chain == after
    {
      var saved, n := chain, |chain| - 1;
      var before := chain[n].summary;
      chain := chain[n := chain[n].(superseded := true)];
      var new' := Plain(s);
      if before.excess > 0 {
        if chain[n].obligation.None? {
          chain := saved;
          return Some(MissingObligation);
        }
        chain := chain[n := chain[n].(obligation := None)];
      }
      if before.credited >= ONE_TONNE {
        if chain[n].credit.None? {
          chain := saved;
          return Some(MissingCredit);
        }
        chain := chain[n := chain[n].(credit := None)];
      }
      if s.excess > 0 {
        new' := new'.(obligation := Some(Obligation(Fee(s.excess, rate), early, None)));
      }
      if s.credited >= ONE_TONNE {
        new' := new'.(credit := Some(NotIssued));
      }
      chain := chain + [new'];
      return None;
    }

    /** A submitted report version: the first version, or the first handler that takes it. */
    method HandleSubmission(s: Summary, early: bool) returns (error: Option<Error>)
      modifies this
      ensures match Submit(State(old(chain), old(gap)), s, rate, early)
              case Err(e) => error == Some(e) && chain == old(chain) && gap == old(gap)
              case Ok(after) => error == None && State(chain, gap) == after
    {
      if chain == [] {
        chain, gap := [FirstVersion(s, rate, early)], false;
        return None;
      }
      if gap {
        return Some(NoComplianceVersion);
      }
      if Last(chain).manual {
        chain := chain + [Plain(s).(byHand := true, manual := true)];
        return None;
      }
      var supersede := CanSupersede(chain);
      if supersede.Err? {
        return Some(supersede.error);
      }
      if supersede.value {
        error := SupersedeLatest(s, early);
        return;
      }
      var handled := Handle(chain, s, rate, early);
      if handled.None? {
        gap := true;
      } else {
        chain := handled.value;
      }
      return None;
    }
  }

  /* ---------- what the versions show ---------- */

  /** The computed excess of version i. */
  function ComputedExcess(chain: seq<Version>, i: nat): nat
    requires i < |chain|
  {
    if i == 0 || chain[i - 1].superseded then chain[i].summary.excess
    else if chain[i].delta > 0 then chain[i].delta
    else 0
  }

  /** The balance still to pay, as the compliance page shows it in tonnes. */
  function OutstandingTonnes(chain: seq<Version>, i: nat, rate: Rate): Tonnes4
    requires i < |chain|
  {
    match chain[i].obligation
    case None => 0
    case Some(obligation) =>
      match obligation.invoice
      case None => if i == 0 || chain[i - 1].superseded then chain[i].summary.excess else chain[i].delta
      case Some(balance) =>
        var owed := match balance case None => 0 case Some(cents) => if cents > 0 then cents else 0;
        if rate == 0 then 0 else ToTonnes(owed, rate)
  }

  /* ---------- runs ---------- */

  /** What the rest of the system may do to a version that is not superseded: invoice its obligation for
      good, follow up its credits, grant credits where emissions are under the limit, ask for manual
      handling. */
  predicate OutsideChange(before: Version, after: Version) {
    && !before.superseded
    && after == before.(manual := after.manual, credit := after.credit, obligation := after.obligation)
    && (before.manual ==> after.manual)
    && (before.credit.Some? ==> after.credit.Some?)
    && (before.obligation.Some? <==> after.obligation.Some?)
    && (before.obligation.Some? ==>
          && after.obligation.value.fee == before.obligation.value.fee
          && (before.obligation.value.invoice.Some? ==> after.obligation.value.invoice.Some?))
    && (after.credit.Some? ==> after.summary.excess == 0)
  }

  /** A submission while the operation is not regulated is ignored. */
  datatype Step =
    | Submission(summary: Summary, early: bool)
    | Ignored
    | Outside(index: nat, after: Version)

  function Next(st: State, step: Step, rate: Rate): State {
    match step
    case Submission(s, early) => (match Submit(st, s, rate, early) case Err(_) => st case Ok(next) => next)
    case Ignored => st.(gap := true)
    case Outside(i, after) =>
      if i < |st.chain| && OutsideChange(st.chain[i], after) then st.(chain := st.chain[i := after]) else st
  }

  function Run(st: State, steps: seq<Step>, rate: Rate): State
    decreases |steps|
  {
    if steps == [] then st else Run(Next(st, steps[0], rate), steps[1..], rate)
  }

  /* ---------- the invariant ---------- */

  /** Exactly a prefix is superseded, and never the latest version. */
  predicate SupersededPrefix(chain: seq<Version>) {
    && (chain != [] ==> !Last(chain).superseded)
    && forall i, j | 0 <= i < j < |chain| && chain[j].superseded :: chain[i].superseded
  }

  /** Versions of the manual handler stand at the end, after versions that are not superseded. */
  predicate ByHandSuffix(chain: seq<Version>) {
    forall i | 0 <= i < |chain| && chain[i].byHand ::
      && i > 0 && !chain[i - 1].superseded
      && chain[i].manual && !chain[i].superseded && chain[i].delta == 0
      && (i + 1 < |chain| ==> chain[i + 1].byHand)
  }

  /** The stored delta is the change from the previous version. */
  predicate DeltasOk(chain: seq<Version>) {
    forall i, j | 0 <= i && j == i + 1 < |chain| && !chain[i].superseded && !chain[j].byHand ::
      chain[j].delta == chain[j].summary.excess - chain[i].summary.excess
  }

  /** A version is charged exactly when it is live and has something computed for it, and its fee is the
      computed excess at the charge rate. */
  predicate Charged(chain: seq<Version>, rate: Rate, i: nat)
    requires i < |chain|
  {
    && (chain[i].obligation.Some? <==> !chain[i].superseded && ComputedExcess(chain, i) > 0)
    && (chain[i].obligation.Some? ==> chain[i].obligation.value.fee == Fee(ComputedExcess(chain, i), rate))
  }

  /** Credits that could be given up with their version are on record, and only versions under the limit
      have any. */
  predicate CreditsOk(chain: seq<Version>, i: nat)
    requires i < |chain|
  {
    var first := !chain[i].superseded && (i == 0 || chain[i - 1].superseded);
    && (first && chain[i].summary.excess == 0 && chain[i].summary.credited >= ONE_TONNE ==> chain[i].credit.Some?)
    && (chain[i].credit.Some? ==> chain[i].summary.excess == 0)
  }

  predicate Inv(chain: seq<Version>, rate: Rate) {
    && SupersededPrefix(chain) && ByHandSuffix(chain) && DeltasOk(chain)
    && (forall i | 0 <= i < |chain| :: CreditsOk(chain, i))
    && (forall i | 0 <= i < |chain| :: Charged(chain, rate, i))
  }

  /** A version that continues a chain whose latest one stays live. */
  predicate Continues(chain: seq<Version>, v: Version, rate: Rate)
    requires chain != []
  {
    && !v.superseded && (v.byHand ==> v.manual && v.delta == 0)
    && (!v.byHand ==> !Last(chain).byHand && v.delta == v.summary.excess - Last(chain).summary.excess)
    && (v.obligation.Some? <==> v.delta > 0)
    && (v.obligation.Some? ==> v.obligation.value.fee == Fee(v.delta, rate))
    && (v.credit.Some? ==> v.summary.excess == 0)
  }

  lemma AppendKeepsCharges(chain: seq<Version>, v: Version, rate: Rate, i: nat)
    requires chain != [] && !Last(chain).superseded && Continues(chain, v, rate) && i <= |chain|
    requires i < |chain| ==> Charged(chain, rate, i)
    ensures Charged(chain + [v], rate, i)
  {
    if i < |chain| {
      assert ComputedExcess(chain + [v], i) == ComputedExcess(chain, i);
    }
  }

  lemma AppendKeeps(chain: seq<Version>, v: Version, rate: Rate)
    requires Inv(chain, rate) && chain != [] && Continues(chain, v, rate)
    ensures Inv(chain + [v], rate)
  {
    var after, n := chain + [v], |chain|;
    forall i | 0 <= i <= n ensures Charged(after, rate, i) && CreditsOk(after, i) {
      assert i < n ==> CreditsOk(chain, i);
      AppendKeepsCharges(chain, v, rate, i);
    }
    assert after[n - 1] == Last(chain) && after[n] == v;
    assert ByHandSuffix(after);
    assert DeltasOk(after);
  }

  lemma OutsideKeepsCharges(chain: seq<Version>, i: nat, v: Version, rate: Rate, j: nat)
    requires i < |chain| && OutsideChange(chain[i], v) && j < |chain| && Charged(chain, rate, j)
    requires CreditsOk(chain, j)
    ensures Charged(chain[i := v], rate, j) && CreditsOk(chain[i := v], j)
  {
    assert ComputedExcess(chain[i := v], j) == ComputedExcess(chain, j);
  }

  lemma OutsideKeeps(chain: seq<Version>, i: nat, v: Version, rate: Rate)
    requires Inv(chain, rate) && i < |chain| && OutsideChange(chain[i], v)
    ensures Inv(chain[i := v], rate)
  {
    var after := chain[i := v];
    forall j | 0 <= j < |chain| ensures Charged(after, rate, j) && CreditsOk(after, j) {
      OutsideKeepsCharges(chain, i, v, rate, j);
    }
    assert forall j | 0 <= j < |chain| ::
        after[j].superseded == chain[j].superseded && after[j].byHand == chain[j].byHand
        && after[j].delta == chain[j].delta && after[j].summary == chain[j].summary;
    assert SupersededPrefix(after);
    assert ByHandSuffix(after);
    assert DeltasOk(after);
  }

  lemma SupersedeKeeps(chain: seq<Version>, s: Summary, rate: Rate, early: bool)
    requires Inv(chain, rate) && chain != [] && !Last(chain).manual
    requires CanSupersede(chain) == Ok(true) && Supersede(chain, s, rate, early).Ok?
    ensures Inv(Supersede(chain, s, rate, early).value, rate)
  {
    var after, n := Supersede(chain, s, rate, early).value, |chain|;
    assert forall i | 0 <= i < n - 1 :: after[i] == chain[i] && chain[i].superseded;
    assert !chain[n - 1].byHand;
    forall i | 0 <= i <= n ensures Charged(after, rate, i) && CreditsOk(after, i) {
      if i < n {
        assert Charged(chain, rate, i) && CreditsOk(chain, i);
      }
    }
  }

  lemma HandleCreditsKeeps(chain: seq<Version>, s: Summary, rate: Rate)
    requires Inv(chain, rate) && chain != [] && !Last(chain).byHand
    requires s.excess == Last(chain).summary.excess && HandleCredits(chain, s).Some?
    ensures Inv(HandleCredits(chain, s).value, rate)
  {
    var after, n := HandleCredits(chain, s).value, |chain| - 1;
    var records := after[n];
    assert OutsideChange(chain[n], records);
    OutsideKeeps(chain, n, records, rate);
    assert after == chain[n := records] + [after[n + 1]];
    AppendKeeps(chain[n := records], after[n + 1], rate);
  }

  lemma HandleKeeps(chain: seq<Version>, s: Summary, rate: Rate, early: bool)
    requires Inv(chain, rate) && chain != [] && !Last(chain).byHand && Handle(chain, s, rate, early).Some?
    ensures Inv(Handle(chain, s, rate, early).value, rate)
  {
    var before := Last(chain).summary;
    if s.excess == before.excess && s != before {
      HandleCreditsKeeps(chain, s, rate);
    } else {
      var after := Handle(chain, s, rate, early).value;
      AppendKeeps(chain, after[|chain|], rate);
    }
  }

  /** Every step keeps the invariant. */
  lemma StepKeeps(st: State, step: Step, rate: Rate)
    requires Inv(st.chain, rate)
    ensures Inv(Next(st, step, rate).chain, rate)
  {
    match step
    case Submission(s, early) =>
      if st.chain != [] && Submit(st, s, rate, early).Ok? {
        if Last(st.chain).manual {
          AppendKeeps(st.chain, Plain(s).(byHand := true, manual := true), rate);
        } else if CanSupersede(st.chain) == Ok(true) {
          SupersedeKeeps(st.chain, s, rate, early);
        } else if Handle(st.chain, s, rate, early).Some? {
          HandleKeeps(st.chain, s, rate, early);
        }
      }
    case Ignored =>
    case Outside(i, after) =>
      if i < |st.chain| && OutsideChange(st.chain[i], after) {
        OutsideKeeps(st.chain, i, after, rate);
      }
  }

  /** Over every run: a superseded prefix, deltas that are differences, and an obligation exactly for
      every live version with a positive computed excess, at the fee for it. */
  lemma {:induction false} RunKeeps(st: State, steps: seq<Step>, rate: Rate)
    requires Inv(st.chain, rate)
    ensures Inv(Run(st, steps, rate).chain, rate)
    decreases |steps|
  {
    if steps != [] {
      StepKeeps(st, steps[0], rate);
      RunKeeps(Next(st, steps[0], rate), steps[1..], rate);
    }
  }

  /* ---------- what is charged over a run ---------- */

  function SumLive(chain: seq<Version>, n: nat): nat
    requires n <= |chain|
  {
    if n == 0 then 0
    else SumLive(chain, n - 1) + if chain[n - 1].superseded then 0 else ComputedExcess(chain, n - 1)
  }

  /** The total by which emissions fell between consecutive live versions. */
  function SumDecreases(chain: seq<Version>, n: nat): nat
    requires n <= |chain|
  {
    if n <= 1 then 0
    else
      var fall := chain[n - 2].summary.excess - chain[n - 1].summary.excess;
      SumDecreases(chain, n - 1) + if !chain[n - 2].superseded && fall > 0 then fall else 0
  }

  function SumFees(chain: seq<Version>, n: nat): Cents
    requires n <= |chain|
  {
    if n == 0 then 0
    else
      SumFees(chain, n - 1)
      + match chain[n - 1].obligation case None => 0 case Some(obligation) => obligation.fee
  }

  function CountCharged(chain: seq<Version>, n: nat): nat
    requires n <= |chain|
  {
    if n == 0 then 0 else CountCharged(chain, n - 1) + if chain[n - 1].obligation.Some? then 1 else 0
  }

  /** The versions before manual handling took over. */
  function ByRule(chain: seq<Version>): (n: nat)
    ensures n <= |chain|
    ensures forall i | 0 <= i < n :: !chain[i].byHand
    ensures n < |chain| ==> chain[n].byHand
  {
    if chain == [] || chain[0].byHand then 0 else 1 + ByRule(chain[1..])
  }

  lemma {:induction false} SumByRule(chain: seq<Version>, n: nat)
    requires SupersededPrefix(chain) && DeltasOk(chain) && 0 < n <= |chain|
    requires forall i | 0 <= i < n :: !chain[i].byHand
    ensures SumLive(chain, n) ==
            if chain[n - 1].superseded then 0 else chain[n - 1].summary.excess + SumDecreases(chain, n)
    ensures chain[n - 1].superseded ==> SumDecreases(chain, n) == 0
  {
    if n > 1 {
      SumByRule(chain, n - 1);
    }
  }

  lemma {:induction false} SumByHand(chain: seq<Version>, m: nat, n: nat)
    requires ByHandSuffix(chain) && m <= n <= |chain| && (m < |chain| ==> chain[m].byHand)
    ensures SumLive(chain, n) == SumLive(chain, m)
    ensures n > m ==> chain[n - 1].byHand
    decreases n
  {
    if n > m {
      SumByHand(chain, m, n - 1);
      assert chain[n - 1].byHand && chain[n - 1].delta == 0;
    }
  }

  lemma {:induction false} NoDecreasesIff(chain: seq<Version>, n: nat)
    requires n <= |chain|
    ensures SumDecreases(chain, n) == 0 <==>
            forall i, j | 0 <= i && j == i + 1 < n && !chain[i].superseded ::
              chain[i].summary.excess <= chain[j].summary.excess
  {
    if n > 1 {
      NoDecreasesIff(chain, n - 1);
    }
  }

  lemma RuleEndsLive(chain: seq<Version>)
    requires SupersededPrefix(chain) && ByHandSuffix(chain) && chain != []
    ensures ByRule(chain) > 0 && !chain[ByRule(chain) - 1].superseded
  {
    assert !chain[0].byHand;
    if ByRule(chain) < |chain| {
      assert chain[ByRule(chain)].byHand;
    }
  }

  /** What all live versions together compute is the excess of the latest version before manual handling
      plus everything emissions fell by until then; so exactly that excess when they never fell. */
  lemma LiveExcessIsLatestPlusDecreases(chain: seq<Version>, rate: Rate)
    requires Inv(chain, rate) && chain != []
    ensures
      var m := ByRule(chain);
      && m > 0 && !chain[m - 1].superseded
      && SumLive(chain, |chain|) == chain[m - 1].summary.excess + SumDecreases(chain, m)
      && (SumLive(chain, |chain|) == chain[m - 1].summary.excess <==>
          forall i, j | 0 <= i && j == i + 1 < m && !chain[i].superseded ::
            chain[i].summary.excess <= chain[j].summary.excess)
  {
    var m := ByRule(chain);
    RuleEndsLive(chain);
    SumByRule(chain, m);
    SumByHand(chain, m, |chain|);
    NoDecreasesIff(chain, m);
  }

  lemma Distributes(a: int, b: int, rate: Rate)
    ensures (a + b) * rate == a * rate + b * rate
  {
  }

  /** The fees on record drift from the exact charge by at most half a cent for each obligation. */
  lemma {:induction false} FeeDrift(chain: seq<Version>, n: nat, rate: Rate)
    requires n <= |chain| && forall i | 0 <= i < n :: Charged(chain, rate, i)
    ensures
      var drift := 2 * (10000 * SumFees(chain, n) - SumLive(chain, n) * rate);
      -10000 * CountCharged(chain, n) <= drift <= 10000 * CountCharged(chain, n)
  {
    if n > 0 {
      FeeDrift(chain, n - 1, rate);
      assert Charged(chain, rate, n - 1);
      if chain[n - 1].obligation.Some? {
        var last := ComputedExcess(chain, n - 1);
        FeeNear(last, rate);
        Distributes(SumLive(chain, n - 1), last, rate);
      }
    }
  }

  /** After every run the fees on record are those of the latest report before manual handling plus all
      decreases, within half a cent for each obligation. */
  lemma RunCharges(steps: seq<Step>, rate: Rate)
    requires Run(START, steps, rate).chain != []
    ensures
      var chain := Run(START, steps, rate).chain;
      var m := ByRule(chain);
      m > 0 &&
      var exact := (chain[m - 1].summary.excess + SumDecreases(chain, m)) * rate;
      var drift := 2 * (10000 * SumFees(chain, |chain|) - exact);
      -10000 * CountCharged(chain, |chain|) <= drift <= 10000 * CountCharged(chain, |chain|)
  {
    var chain := Run(START, steps, rate).chain;
    RunKeeps(START, steps, rate);
    LiveExcessIsLatestPlusDecreases(chain, rate);
    FeeDrift(chain, |chain|, rate);
  }

  /** After every run an obligation exists exactly for a live version with a positive computed excess:
      the first one, one after a superseded one, or one whose excess exceeds the previous. */
  lemma ObligationExistsIff(steps: seq<Step>, rate: Rate, i: nat)
    requires i < |Run(START, steps, rate).chain|
    ensures
      var chain := Run(START, steps, rate).chain;
      chain[i].obligation.Some? <==>
        && !chain[i].superseded && !chain[i].byHand
        && if i == 0 || chain[i - 1].superseded then chain[i].summary.excess > 0
           else chain[i - 1].summary.excess < chain[i].summary.excess
  {
    var chain := Run(START, steps, rate).chain;
    RunKeeps(START, steps, rate);
    assert Charged(chain, rate, i);
  }

  /** After every run, what a live version shows until it is invoiced is what was computed for it. */
  lemma NotInvoicedShowsComputed(steps: seq<Step>, rate: Rate, i: nat)
    requires i < |Run(START, steps, rate).chain| && !Run(START, steps, rate).chain[i].superseded
    requires Run(START, steps, rate).chain[i].obligation.Some? ==>
      Run(START, steps, rate).chain[i].obligation.value.invoice.None?
    ensures OutstandingTonnes(Run(START, steps, rate).chain, i, rate) ==
      ComputedExcess(Run(START, steps, rate).chain, i)
  {
    RunKeeps(START, steps, rate);
    assert Charged(Run(START, steps, rate).chain, rate, i);
  }

  /** Once it is invoiced and unpaid, nothing is lost at $100 a tonne or more, and above $100/3 the
      balance shown is off by 0.0001 t at most. */
  lemma InvoiceShowsComputed(chain: seq<Version>, i: nat, rate: Rate)
    requires Inv(chain, rate) && i < |chain| && rate > 0 && chain[i].obligation.Some?
    requires chain[i].obligation.value.invoice == Some(Some(chain[i].obligation.value.fee))
    ensures
      var amount, shown := ComputedExcess(chain, i), OutstandingTonnes(chain, i, rate);
      && (rate >= 10000 ==> shown == amount)
      && (3 * rate > 10000 ==> -1 <= shown - amount <= 1)
  {
    var amount := ComputedExcess(chain, i);
    assert Charged(chain, rate, i);
    assert Fee(amount, rate) >= 0 by {
      assert amount * rate >= 0;
    }
    if rate >= 10000 {
      TonnesSurvive(amount, rate);
    }
    if 3 * rate > 10000 {
      TonnesErrorAboveThird(amount, rate);
    }
  }

  /* ---------- submissions that fail or get no version ---------- */

  /** The look-ups inside the handlers never fail: a submission is refused exactly after a gap. */
  lemma SubmissionRefusedIff(st: State, s: Summary, rate: Rate, early: bool)
    requires Inv(st.chain, rate)
    ensures Submit(st, s, rate, early).Err? <==> st.chain != [] && st.gap
    ensures Submit(st, s, rate, early).Err? ==> Submit(st, s, rate, early).error == NoComplianceVersion
  {
    if st.chain != [] && !Last(st.chain).manual {
      var last := |st.chain| - 1;
      assert Charged(st.chain, rate, last) && CreditsOk(st.chain, last) && !st.chain[last].byHand;
    }
  }

  /** A submission that is taken gets no version exactly when only the credited emissions changed and no
      handler for credits applies: with credits on record because they were below a tonne, without
      because they already were a tonne or still are less. */
  lemma SubmissionLeavesGapIff(st: State, s: Summary, rate: Rate, early: bool)
    requires Inv(st.chain, rate) && st.chain != [] && !st.gap
    ensures
      var last := Last(st.chain);
      && Submit(st, s, rate, early).Ok?
      && (Submit(st, s, rate, early).value.gap <==>
          && !last.manual && CanSupersede(st.chain) != Ok(true)
          && s.excess == last.summary.excess && s.credited != last.summary.credited
          && if last.credit.Some? then last.summary.credited < ONE_TONNE
             else last.summary.credited >= ONE_TONNE || s.credited < ONE_TONNE)
  {
    SubmissionRefusedIff(st, s, rate, early);
  }

  /** After a gap no submission is ever taken again. */
  lemma {:induction false} GapStays(st: State, steps: seq<Step>, rate: Rate)
    requires st.chain != [] && st.gap
    ensures Run(st, steps, rate).gap && |Run(st, steps, rate).chain| == |st.chain|
    decreases |steps|
  {
    if steps != [] {
      GapStays(Next(st, steps[0], rate), steps[1..], rate);
    }
  }

  /** Not only an ignored submission leaves a gap. Less than a tonne of credits that becomes another
      amount below a tonne is no case of any handler. */
  lemma SmallCreditsLeaveGap(rate: Rate)
    ensures
      var st := Run(START, [Submission(Summary(0, 5000), true), Submission(Summary(0, 7000), true)], rate);
      |st.chain| == 1 && st.gap
  {
    var first, second := Submission(Summary(0, 5000), true), Submission(Summary(0, 7000), true);
    var st := Next(START, first, rate);
    assert [first, second][1..] == [second];
    assert Run(START, [first, second], rate) == Run(st, [second], rate);
    assert Handle(st.chain, second.summary, rate, true) == None;
    assert Run(st, [second], rate) == Run(Next(st, second, rate), [], rate);
  }
}
