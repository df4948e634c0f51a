/** The policy lifecycle log, the record folded from it, and what makes a log legal. */
module PolicyLog {
  import opened Prelude
  import opened Intents

  datatype TransitionKind = Activate | Disable | Reenable | Retire

  datatype PolicyTransition = PolicyTransition(number: nat, kind: TransitionKind, epoch: nat,
                                               frontier: Option<Position>)

  /** NoState is the zero value, held only by a record that no transition has reached. */
  datatype PolicyState = NoState | Active | Disabled | Retired

  datatype PolicyRecord = PolicyRecord(policyID: string, state: PolicyState, epoch: nat,
                                       frontier: Option<Position>, number: nat)
  {
    function Apply(policy: string, t: PolicyTransition): PolicyRecord {
      var r := this.(policyID := policy, number := t.number, epoch := t.epoch);
      match t.kind
      case Activate => r.(state := Active, frontier := t.frontier)
      case Reenable => r.(state := Active, frontier := t.frontier)
      case Disable => r.(state := Disabled)
      case Retire => r.(state := Retired)
    }
  }

  const ZeroRecord := PolicyRecord("", NoState, 0, None, 0)

  type Log = seq<PolicyTransition>

  function Fold(policy: string, log: Log): PolicyRecord {
    if log == [] then ZeroRecord
    else Fold(policy, log[..|log|-1]).Apply(policy, log[|log|-1])
  }

  lemma FoldAppend(policy: string, log: Log, t: PolicyTransition)
    ensures Fold(policy, log + [t]) == Fold(policy, log).Apply(policy, t)
  {
    assert (log + [t])[..|log|] == log;
  }

  // ---- Legality -----------------------------------------------------------------------

  /** The transitions the Service may append after reading rec. */
  ghost predicate LegalNext(order: PublicationOrder, rec: PolicyRecord, t: PolicyTransition) {
    match t.kind
    case Activate => rec.state == NoState && t.epoch == 1 && t.frontier.Some?
    case Reenable => rec.state == Disabled && t.epoch == rec.epoch + 1 && t.frontier.Some? && rec.frontier.Some?
                     && NotBefore(order, t.frontier.value, rec.frontier.value)
    case Disable => rec.state == Active && t.epoch == rec.epoch && t.frontier.None?
    case Retire => (rec.state == Active || rec.state == Disabled) && t.epoch == rec.epoch && t.frontier.None?
  }

  ghost predicate LegalLog(order: PublicationOrder, policy: string, log: Log) {
    forall n :: 0 <= n < |log| ==> log[n].number == n + 1 && LegalNext(order, Fold(policy, log[..n]), log[n])
  }

  lemma LegalAppend(order: PublicationOrder, policy: string, log: Log, t: PolicyTransition)
    requires LegalLog(order, policy, log)
    requires t.number == |log| + 1 && LegalNext(order, Fold(policy, log), t)
    ensures LegalLog(order, policy, log + [t])
  {
    var l := log + [t];
    forall n | 0 <= n < |l| ensures l[n].number == n + 1 && LegalNext(order, Fold(policy, l[..n]), l[n]) {
      if n < |log| { assert l[..n] == log[..n]; } else { assert l[..n] == log; }
    }
  }

  function StateAfter(kind: TransitionKind): PolicyState {
    match kind
    case Activate => Active
    case Reenable => Active
    case Disable => Disabled
    case Retire => Retired
  }

  predicate Opening(t: PolicyTransition) { t.kind == Activate || t.kind == Reenable }

  /** The record after n entries, read off the last of them. */
  lemma FoldLast(policy: string, log: Log, n: nat)
    requires 0 < n <= |log|
    ensures var rec := Fold(policy, log[..n]);
            var last := log[n-1];
            && rec.policyID == policy && rec.number == last.number && rec.epoch == last.epoch
            && rec.state == StateAfter(last.kind)
            && rec.frontier == if Opening(last) then last.frontier else Fold(policy, log[..n-1]).frontier
  {
    assert log[..n][..n-1] == log[..n-1];
  }

  // ---- Epochs and frontiers -----------------------------------------------------------

  /** One legal entry leaves the epoch or, by opening the policy, raises it by one. */
  lemma NextEpoch(order: PublicationOrder, policy: string, log: Log, n: nat)
    requires LegalLog(order, policy, log) && 0 < n <= |log|
    ensures var before, after := Fold(policy, log[..n-1]), Fold(policy, log[..n]);
            after.epoch == if after.state == Active then before.epoch + 1 else before.epoch
  {
    FoldLast(policy, log, n);
    assert LegalNext(order, Fold(policy, log[..n-1]), log[n-1]);
    if n == 1 { assert log[..0] == []; }
  }

  /** The epoch never falls as the log grows. */
  lemma {:induction false} EpochsNeverFall(order: PublicationOrder, policy: string, log: Log, m: nat, n: nat)
    requires LegalLog(order, policy, log) && m <= n <= |log|
    ensures Fold(policy, log[..m]).epoch <= Fold(policy, log[..n]).epoch
  {
    if m < n {
      EpochsNeverFall(order, policy, log, m, n - 1);
      NextEpoch(order, policy, log, n);
    }
  }

  /** A policy that has moved on from an ACTIVE point is either not ACTIVE or in a later
      epoch. */
  lemma {:induction false} ActiveIsLeft(order: PublicationOrder, policy: string, log: Log, m: nat, n: nat)
    requires LegalLog(order, policy, log) && m < n <= |log|
    requires Fold(policy, log[..m]).state == Active
    ensures Fold(policy, log[..n]).epoch >= Fold(policy, log[..m]).epoch
    ensures Fold(policy, log[..n]).state == Active ==> Fold(policy, log[..n]).epoch > Fold(policy, log[..m]).epoch
  {
    if m < n - 1 { ActiveIsLeft(order, policy, log, m, n - 1); }
    NextEpoch(order, policy, log, n);
  }

  /** Two points of a log that are both ACTIVE at the same epoch are the same point, so a
      conditional write that re-checks only state and epoch has re-checked the frontier. */
  lemma ActiveAtEpochIsOnePoint(order: PublicationOrder, policy: string, log: Log, m: nat, n: nat)
    requires LegalLog(order, policy, log) && m <= |log| && n <= |log|
    requires Fold(policy, log[..m]).state == Active && Fold(policy, log[..n]).state == Active
    requires Fold(policy, log[..m]).epoch == Fold(policy, log[..n]).epoch
    ensures m == n
  {
    if m < n { ActiveIsLeft(order, policy, log, m, n); }
    if n < m { ActiveIsLeft(order, policy, log, n, m); }
  }

  /** Entry i opened epoch e. */
  ghost predicate Opens(log: Log, i: nat, e: nat) {
    i < |log| && Opening(log[i]) && log[i].epoch == e
  }

  /** An ACTIVE record carries the frontier of the entry that opened its epoch. */
  lemma ActiveFrontier(order: PublicationOrder, policy: string, log: Log, n: nat)
    requires LegalLog(order, policy, log) && n <= |log|
    requires Fold(policy, log[..n]).state == Active
    ensures n > 0 && Opens(log, n - 1, Fold(policy, log[..n]).epoch)
    ensures log[n-1].frontier.Some? && Fold(policy, log[..n]).frontier == log[n-1].frontier
  {
    assert log[..0] == [];
    FoldLast(policy, log, n);
    assert LegalNext(order, Fold(policy, log[..n-1]), log[n-1]);
  }

  // ---- The closed form of a legal log -------------------------------------------------

  /** Entry i against the entries just before it. */
  ghost predicate FollowsOn(order: PublicationOrder, log: Log, i: nat)
    requires i < |log|
  {
    var t := log[i];
    && t.number == i + 1
    && (t.kind == Activate <==> i == 0)
    && (i > 0 ==> log[i-1].kind != Retire)
    && (t.kind == Disable ==> Opening(log[i-1]))
    && (t.kind == Reenable ==> log[i-1].kind == Disable)
    && t.epoch == (if i == 0 then 1 else if t.kind == Reenable then log[i-1].epoch + 1 else log[i-1].epoch)
    && (t.frontier.Some? <==> Opening(t))
    && (t.kind == Reenable ==> i > 1 && log[i-2].frontier.Some?
                               && NotBefore(order, t.frontier.value, log[i-2].frontier.value))
  }

  /** After a DISABLE the record still carries the frontier of the opening before it. */
  lemma DisabledFrontier(policy: string, log: Log, i: nat)
    requires 1 < i <= |log| && log[i-1].kind == Disable && Opening(log[i-2])
    ensures Fold(policy, log[..i]).frontier == log[i-2].frontier
  {
    FoldLast(policy, log, i);
    FoldLast(policy, log, i - 1);
  }

  lemma LegalFollowsOn(order: PublicationOrder, policy: string, log: Log, i: nat)
    requires LegalLog(order, policy, log) && i < |log|
    ensures FollowsOn(order, log, i)
  {
    assert LegalNext(order, Fold(policy, log[..i]), log[i]);
    assert log[..0] == [];
    if i > 0 {
      FoldLast(policy, log, i);
      assert LegalNext(order, Fold(policy, log[..i-1]), log[i-1]);
      if log[i-1].kind == Disable {
        FoldLast(policy, log, i - 1);
        DisabledFrontier(policy, log, i);
      }
    }
  }

  lemma FollowsOnLegal(order: PublicationOrder, policy: string, log: Log)
    requires forall i :: 0 <= i < |log| ==> FollowsOn(order, log, i)
    ensures LegalLog(order, policy, log)
  {
    forall n | 0 <= n < |log| ensures log[n].number == n + 1 && LegalNext(order, Fold(policy, log[..n]), log[n]) {
      assert FollowsOn(order, log, n);
      if n == 0 {
        assert log[..0] == [];
      } else {
        assert FollowsOn(order, log, n - 1);
        FoldLast(policy, log, n);
        if log[n-1].kind == Disable { DisabledFrontier(policy, log, n); }
      }
    }
  }

  /** e is half of n, rounded up: the number of openings among n entries that start with
      one and alternate. */
  predicate OpenedBy(n: nat, e: nat) { 2 * e == n || 2 * e == n + 1 }

  predicate Even(n: nat) { n % 2 == 0 }

  /** One ACTIVATE, then DISABLE and REENABLE in turn, then at most one final RETIRE.
      Epochs count the openings; every opening carries a frontier that is not before the
      frontier of the opening it follows. */
  ghost predicate EntryShape(order: PublicationOrder, log: Log, i: nat)
    requires i < |log|
  {
    var t := log[i];
    && t.number == i + 1
    && (t.kind == Activate <==> i == 0)
    && (t.kind == Reenable ==> Even(i))
    && (t.kind == Disable ==> !Even(i))
    && (t.kind == Retire ==> i == |log| - 1)
    && OpenedBy(if t.kind == Retire then i else i + 1, t.epoch)
    && (t.frontier.Some? <==> Opening(t))
    && (t.kind == Reenable ==> log[i-2].frontier.Some? && NotBefore(order, t.frontier.value, log[i-2].frontier.value))
  }

  ghost predicate LogShape(order: PublicationOrder, log: Log) {
    forall i :: 0 <= i < |log| ==> EntryShape(order, log, i)
  }

  lemma {:induction false} FollowsOnShape(order: PublicationOrder, log: Log, i: nat)
    requires i < |log|
    requires forall j :: 0 <= j < |log| ==> FollowsOn(order, log, j)
    ensures EntryShape(order, log, i)
  {
    assert FollowsOn(order, log, i);
    if i > 0 { FollowsOnShape(order, log, i - 1); }
    if i + 1 < |log| { assert FollowsOn(order, log, i + 1); }
  }

  lemma ShapeFollowsOn(order: PublicationOrder, log: Log, i: nat)
    requires LogShape(order, log) && i < |log|
    ensures FollowsOn(order, log, i)
  {
    assert EntryShape(order, log, i);
    if i > 0 { assert EntryShape(order, log, i - 1); }
    if i > 1 { assert EntryShape(order, log, i - 2); }
  }

  lemma LegalShape(order: PublicationOrder, policy: string, log: Log)
    requires LegalLog(order, policy, log)
    ensures LogShape(order, log)
  {
    forall i | 0 <= i < |log| ensures FollowsOn(order, log, i) { LegalFollowsOn(order, policy, log, i); }
    forall i | 0 <= i < |log| ensures EntryShape(order, log, i) { FollowsOnShape(order, log, i); }
  }

  /** A log built by legal appends is exactly a log of the documented shape. */
  lemma LegalIffShape(order: PublicationOrder, policy: string, log: Log)
    ensures LegalLog(order, policy, log) <==> LogShape(order, log)
  {
    if LegalLog(order, policy, log) { LegalShape(order, policy, log); }
    if LogShape(order, log) {
      forall i | 0 <= i < |log| ensures FollowsOn(order, log, i) { ShapeFollowsOn(order, log, i); }
      FollowsOnLegal(order, policy, log);
    }
  }

  /** Frontiers never move backwards along a log, whatever disables lie between. */
  lemma {:induction false} FrontiersNeverFall(order: PublicationOrder, log: Log, i: nat, j: nat)
    requires Lawful(order) && LogShape(order, log)
    requires i < j < |log| && log[i].frontier.Some? && log[j].frontier.Some?
    ensures NotBefore(order, log[j].frontier.value, log[i].frontier.value)
  {
    assert EntryShape(order, log, i) && EntryShape(order, log, j);
    if i < j - 2 { FrontiersNeverFall(order, log, i, j - 2); }
  }

  /** Openings stand in the order of their epochs, and each carries a frontier. */
  lemma OpenedNoLater(order: PublicationOrder, log: Log, i: nat, j: nat)
    requires LogShape(order, log) && i < |log| && j < |log| && Opening(log[i]) && Opening(log[j])
    requires log[i].epoch <= log[j].epoch
    ensures i <= j && log[i].frontier.Some? && log[j].frontier.Some?
  {
    assert EntryShape(order, log, i) && EntryShape(order, log, j);
  }

  /** Once a position is strictly after an opening's frontier it is strictly after the
      frontier of every earlier opening. Read backwards: a backlog position that some
      opening left behind is never admissible at a later one. */
  lemma AfterEveryEarlierFrontier(order: PublicationOrder, log: Log, i: nat, j: nat, p: Position)
    requires Lawful(order) && LogShape(order, log)
    requires i <= j < |log| && log[i].frontier.Some? && log[j].frontier.Some?
    requires order(p, log[j].frontier.value) == After
    ensures order(p, log[i].frontier.value) == After
  {
    if i < j { FrontiersNeverFall(order, log, i, j); }
  }

  // ---- The admission gate -------------------------------------------------------------

  datatype NotAdmittedReason = PolicyNotActive | OccurrenceNotNew | OccurrenceUnknown
                             | PositionUnknown | PositionNotComparable | PreFrontier

  /** The published admission rule: ACTIVE, occurrence exactly NEW, and a known position
      that is comparable with and strictly after the record's frontier. */
  ghost predicate GateOpen(order: PublicationOrder, rec: PolicyRecord, facts: PublicationFacts) {
    && rec.state == Active
    && facts.cls == NewOccurrence
    && facts.position.Some? && rec.frontier.Some?
    && order(facts.position.value, rec.frontier.value) == After
  }

  /** The reason a record refuses the facts, or None when the gate is open. */
  function Refusal(order: PublicationOrder, rec: PolicyRecord, facts: PublicationFacts): (r: Option<NotAdmittedReason>)
    ensures r.None? <==> GateOpen(order, rec, facts)
  {
    if rec.state != Active then Some(PolicyNotActive)
    else if facts.cls == Reexpression then Some(OccurrenceNotNew)
    else if facts.cls != NewOccurrence then Some(OccurrenceUnknown)
    else if facts.position.None? then Some(PositionUnknown)
    else if rec.frontier.None? then Some(PositionNotComparable)
    else match order(facts.position.value, rec.frontier.value)
      case Incomparable => Some(PositionNotComparable)
      case After => None
      case At => Some(PreFrontier)
      case Before => Some(PreFrontier)
  }
}
