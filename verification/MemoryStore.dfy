/** The in-memory reference store: one object, six maps updated in place. Every method is
    one atomic call and is proved equal to the corresponding function of StoreSpec. */
module MemoryStores {
  import opened Prelude
  import opened Ordering
  import opened Intents
  import opened PolicyLog
  import S = StoreSpec

  class MemoryStore {
    var intents: map<ID, Intent>
    var auto: map<S.AutoKey, ID>
    var ops: map<string, ID>
    var runs: map<RunID, ID>
    var policyLogs: map<string, Log>
    var policies: map<string, PolicyRecord>

    ghost function View(): S.State
      reads this
    {
      S.State(intents, auto, ops, runs, policyLogs, policies)
    }

    ghost predicate Valid()
      reads this
    {
      S.Valid(View())
    }

    constructor ()
      ensures Valid() && View() == S.Empty
    {
      intents, auto, ops, runs, policyLogs, policies := map[], map[], map[], map[], map[], map[];
      new;
      S.EmptyValid();
    }

    method LookupAutomatic(policy: string, subject: string) returns (r: Option<Intent>)
      requires Valid()
      ensures r == S.LookupAutomatic(View(), policy, subject)
      ensures r.Some? <==> exists id :: id in intents && intents[id].origin == Automatic
                                        && intents[id].autoRunPolicyID == policy && intents[id].subject == subject
      ensures r.Some? ==> r.value.id in intents && intents[r.value.id] == r.value
                          && r.value.autoRunPolicyID == policy && r.value.subject == subject
    {
      var k := S.AutoKey(policy, subject);
      if k !in auto { return None; }
      assert intents[auto[k]].id == auto[k];
      r := Some(intents[auto[k]]);
    }

    method LookupExplicit(op: string) returns (r: Option<Intent>)
      requires Valid()
      ensures r == S.LookupExplicit(View(), op)
      ensures r.Some? <==> exists id :: id in intents && intents[id].origin == Explicit && intents[id].operationID == op
    {
      if op !in ops { return None; }
      assert intents[ops[op]].operationID == op;
      r := Some(intents[ops[op]]);
    }

    method AllocateID(env: S.Env) returns (r: Result<ID>)
      ensures r == S.AllocateID(View(), env)
      ensures r.Ok? ==> r.value !in intents
    {
      if env.id.None? { return Err(Fault); }
      if env.id.value in intents { return Err(Duplicate); }
      r := Ok(env.id.value);
    }

    method CreateAutomatic(draft: Intent, env: S.Env) returns (r: Result<S.Created>)
      requires Valid()
      modifies this
      ensures S.FreshAutomatic(draft) ==> Valid()
      ensures (View(), r) == S.CreateAutomatic(old(View()), draft, env)
    {
      if S.FreshAutomatic(draft) { S.CreateAutomaticValid(View(), draft, env); }
      var k := S.KeyOf(draft);
      if k in auto { return Ok(S.Created(intents[auto[k]], false)); }
      var chosen := AllocateID(env);
      if chosen.Err? { return Err(chosen.code); }
      var intent := draft.(id := chosen.value);
      if S.IndexStaged in env.faults { return Err(Fault); }
      if S.IntentStaged in env.faults { return Err(Fault); }
      auto := auto[k := intent.id];
      intents := intents[intent.id := intent];
      r := Ok(S.Created(intent, true));
    }

    method CreateAutomaticAdmitted(draft: Intent, epoch: nat, env: S.Env) returns (r: Result<S.Created>)
      requires Valid()
      modifies this
      ensures S.FreshAutomatic(draft) ==> Valid()
      ensures (View(), r) == S.CreateAutomaticAdmitted(old(View()), draft, epoch, env)
    {
      if S.FreshAutomatic(draft) { S.CreateAutomaticValid(View(), draft, env); }
      var k := S.KeyOf(draft);
      if k in auto { return Ok(S.Created(intents[auto[k]], false)); }
      var policy := draft.autoRunPolicyID;
      if policy !in policies || policies[policy].state != Active || policies[policy].epoch != epoch {
        return Err(PolicyStale);
      }
      var chosen := AllocateID(env);
      if chosen.Err? { return Err(chosen.code); }
      var intent := draft.(id := chosen.value);
      if S.IndexStaged in env.faults { return Err(Fault); }
      if S.IntentStaged in env.faults { return Err(Fault); }
      auto := auto[k := intent.id];
      intents := intents[intent.id := intent];
      r := Ok(S.Created(intent, true));
    }

    method CreateExplicit(draft: Intent, env: S.Env) returns (r: Result<S.Created>)
      requires Valid()
      modifies this
      ensures Valid()
      ensures (View(), r) == S.CreateExplicit(old(View()), draft, env)
    {
      S.CreateExplicitValid(View(), draft, env);
      if !S.ExplicitDraftOK(draft) { return Err(InvalidContract); }
      var op := draft.operationID;
      if op in ops { return Ok(S.Created(intents[ops[op]], false)); }
      var chosen := AllocateID(env);
      if chosen.Err? { return Err(chosen.code); }
      var intent := draft.(id := chosen.value);
      if S.LedgerStaged in env.faults { return Err(Fault); }
      if S.IntentStaged in env.faults { return Err(Fault); }
      ops := ops[op := intent.id];
      intents := intents[intent.id := intent];
      r := Ok(S.Created(intent, true));
    }

    method AttachRunID(id: ID, run: RunID, env: S.Env) returns (r: Result<Intent>)
      requires Valid()
      modifies this
      ensures Valid()
      ensures (View(), r) == S.AttachRunID(old(View()), id, run, env)
    {
      S.AttachRunIDValid(View(), id, run, env);
      if id !in intents { return Err(NotFound); }
      var intent := intents[id];
      if intent.runID == run { return Ok(intent); }
      if intent.runID != "" { return Err(RunIDConflict); }
      if run in runs { return Err(RunIDConflict); }
      if S.RunIndexStaged in env.faults { return Err(Fault); }
      if S.IntentStaged in env.faults { return Err(Fault); }
      intent := intent.(runID := run);
      runs := runs[run := id];
      intents := intents[id := intent];
      r := Ok(intent);
    }

    method Get(id: ID) returns (r: Result<Intent>)
      requires Valid()
      ensures r == S.Get(View(), id)
      ensures r.Ok? ==> r.value.id == id
    {
      if id !in intents { return Err(NotFound); }
      r := Ok(intents[id]);
    }

    method GetPolicy(policy: string) returns (r: Option<PolicyRecord>)
      requires Valid()
      ensures r == S.GetPolicy(View(), policy)
      ensures r == if policy in policyLogs then Some(Fold(policy, policyLogs[policy])) else None
    {
      r := if policy in policies then Some(policies[policy]) else None;
    }

    method PolicyLog(policy: string) returns (r: Log)
      ensures r == S.LogAt(View(), policy)
    {
      r := if policy in policyLogs then policyLogs[policy] else [];
    }

    /** Classifies the policy's automatic intents by one pass over `auto` in any order,
        then sorts both lists. */
    method MembershipLocked(policy: string) returns (m: S.Membership)
      requires Valid()
      ensures m == S.MembershipOf(View(), policy)
    {
      var held, attached: seq<ID> := [], [];
      var rest := auto.Keys;
      ghost var seen: set<S.AutoKey> := {};
      while rest != {}
        invariant seen + rest == auto.Keys && seen !! rest
        invariant NoDuplicates(held) && NoDuplicates(attached)
        invariant forall x :: x in held <==> x in S.HeldAmong(View(), policy, seen)
        invariant forall x :: x in attached <==> x in S.AttachedAmong(View(), policy, seen)
        decreases rest
      {
        var k :| k in rest;
        assert auto[k] !in held && auto[k] !in attached by {
          assert forall k' :: k' in seen ==> S.KeyOf(intents[auto[k']]) == k';
        }
        rest, seen := rest - {k}, seen + {k};
        if k.policyID == policy {
          var id := auto[k];
          if intents[id].blockers.policyDisable != Clear {
            held := held + [id];
          } else if intents[id].runID != "" {
            attached := attached + [id];
          }
        }
      }
      assert seen == auto.Keys;
      SortLists(held, S.HeldIDs(View(), policy));
      SortLists(attached, S.AttachedIDs(View(), policy));
      m := S.Membership(Sort(held, IdKey), Sort(attached, IdKey));
      ListsUnique(m.held, S.MembershipOf(View(), policy).held, S.HeldIDs(View(), policy));
      ListsUnique(m.attached, S.MembershipOf(View(), policy).attached, S.AttachedIDs(View(), policy));
    }

    method GetPolicyMembership(policy: string) returns (r: Option<S.Appended>)
      requires Valid()
      ensures r == match S.GetPolicy(View(), policy)
                   case None => None
                   case Some(rec) => Some(S.Appended(rec, S.MembershipOf(View(), policy)))
    {
      if policy !in policies { return None; }
      var m := MembershipLocked(policy);
      r := Some(S.Appended(policies[policy], m));
    }

    /** The ids a stop must hold: no RunID, and not BLOCKED already. */
    method CollectHeld(policy: string) returns (held: set<ID>)
      requires Valid()
      ensures held == set id | id in S.Unassigned(View(), policy) && intents[id].blockers.policyDisable != Blocked
    {
      held := {};
      var rest := auto.Keys;
      ghost var seen: set<S.AutoKey> := {};
      while rest != {}
        invariant seen + rest == auto.Keys && seen !! rest
        invariant held == set k | k in seen && k.policyID == policy && intents[auto[k]].runID == ""
                                  && intents[auto[k]].blockers.policyDisable != Blocked :: auto[k]
        decreases rest
      {
        var k :| k in rest;
        rest, seen := rest - {k}, seen + {k};
        var intent := intents[auto[k]];
        if k.policyID == policy && intent.runID == "" && intent.blockers.policyDisable != Blocked {
          held := held + {auto[k]};
        }
      }
      assert seen == auto.Keys;
    }

    /** Writes the POLICY_DISABLE hold to every collected id. */
    method WriteHolds(held: set<ID>)
      requires held <= intents.Keys
      modifies this`intents
      ensures intents == S.HoldAll(old(intents), held)
    {
      var rest := held;
      while rest != {}
        invariant rest <= held
        invariant intents == S.HoldAll(old(intents), held - rest)
        decreases rest
      {
        var id :| id in rest;
        rest := rest - {id};
        var intent := intents[id];
        intents := intents[id := intent.(blockers := intent.blockers.(policyDisable := Blocked))];
      }
      assert held - rest == held;
    }

    method HoldUnassigned(policy: string)
      requires Valid()
      modifies this`intents
      ensures intents == S.HoldAll(old(intents), S.Unassigned(old(View()), policy))
    {
      var held := CollectHeld(policy);
      WriteHolds(held);
      S.HoldSkipsBlocked(old(intents), S.Unassigned(old(View()), policy), held);
    }

    /** Compare-and-append: only the length of the log is compared. */
    method AppendPolicyTransition(policy: string, expected: nat, t: PolicyTransition, hold: bool, env: S.Env)
      returns (r: Result<S.Appended>)
      requires Valid()
      modifies this
      ensures Valid()
      ensures (View(), r) == S.AppendPolicyTransition(old(View()), policy, expected, t, hold, env)
    {
      var log := PolicyLog(policy);
      if |log| != expected { return Err(PolicyStale); }
      if S.PolicyStaged in env.faults || (hold && S.HoldStaged in env.faults) { return Err(Fault); }
      var next := Publish(policy, t.(number := expected + 1), hold);
      var members := S.NoMembers;
      if hold {
        members := MembershipLocked(policy);
      }
      r := Ok(S.Appended(next, members));
    }

    /** Makes the staged log, record and holds visible. */
    method Publish(policy: string, entry: PolicyTransition, hold: bool) returns (next: PolicyRecord)
      requires Valid() && entry.number == |S.LogAt(View(), policy)| + 1
      modifies this
      ensures Valid() && View() == S.Extended(old(View()), policy, entry, hold)
      ensures next == S.RecordAt(View(), policy)
    {
      var log := PolicyLog(policy);
      var current := if policy in policies then policies[policy] else ZeroRecord;
      next := current.Apply(policy, entry);
      if hold { HoldUnassigned(policy); }
      policyLogs := policyLogs[policy := log + [entry]];
      policies := policies[policy := next];
      ghost var target := S.Extended(old(View()), policy, entry, hold);
      assert intents == target.intents && policyLogs == target.policyLogs && policies == target.policies;
      S.ExtendedValid(old(View()), policy, entry, hold);
    }

    method UpdateBlocker(id: ID, owner: BlockerOwner, state: BlockerState, env: S.Env) returns (r: Result<Intent>)
      requires Valid()
      modifies this
      ensures Valid()
      ensures (View(), r) == S.UpdateBlocker(old(View()), id, owner, state, env)
    {
      S.UpdateBlockerValid(View(), id, owner, state, env);
      if id !in intents { return Err(NotFound); }
      var intent := intents[id];
      var slot := intent.blockers.Slot(owner);
      if slot.None? { return Err(InvalidTransition); }
      if slot.value == state { return Ok(intent); }
      if S.BlockerStaged in env.faults { return Err(Fault); }
      intent := intent.(blockers := intent.blockers.SetSlot(owner, state));
      intents := intents[id := intent];
      r := Ok(intent);
    }
  }
}
