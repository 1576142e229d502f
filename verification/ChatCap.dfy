/**
  The cap on a sender's active requests under interleaving. The count and the insert of a send are separate
  statements, and a renew past its purge may revive a row whose lease has run out since, so 25 is not the bound.
  What matters is how many of the sender's sends are past their count, and of its renews past their purge, when a
  send passes its count; a renew whose statements run back to back is never among them.
 */
module ChatCap {
  import opened Prelude
  import opened ChatStore
  import opened ChatMachine

  predicate PastCount(call: Call, a: AccountId) {
    call.SendCall? && call.caller == a &&
    (call.send.Stamp? || call.send.LookupRecipient? || call.send.CheckBlock? || call.send.Insert?)
  }

  predicate PastPurge(call: Call, a: AccountId) {
    call.RenewCall? && call.caller == a && !call.renew.RenewPurge?
  }

  /** The sender's sends that have not returned. */
  function Sends(s: Sys, a: AccountId): set<nat> {
    set c | c in s.calls && s.calls[c].SendCall? && s.calls[c].caller == a
  }

  /** The sender's renews that have not returned. */
  function Renews(s: Sys, a: AccountId): set<nat> {
    set c | c in s.calls && s.calls[c].RenewCall? && s.calls[c].caller == a
  }

  function Counted(s: Sys, a: AccountId): set<nat> {
    set c | c in s.calls && PastCount(s.calls[c], a)
  }

  function Renewing(s: Sys, a: AccountId): set<nat> {
    set c | c in s.calls && PastPurge(s.calls[c], a)
  }

  function Revivable(s: Sys, a: AccountId): set<Uuid> {
    set c | c in Renewing(s, a) :: s.calls[c].requestId
  }

  /** The sender's rows that are active, or that a renew in flight may make active again. */
  function Hot(s: Sys, a: AccountId): set<Uuid> {
    set q | q in s.db.requests && s.db.requests[q].sender == a &&
            (Active(s.db.requests[q], s.clock) || q in Revivable(s, a))
  }

  lemma {:induction false} ImageSize(calls: map<nat, Call>, cs: set<nat>)
    requires cs <= calls.Keys && forall c | c in cs :: calls[c].RenewCall?
    ensures |set c | c in cs :: calls[c].requestId| <= |cs|
    decreases |cs|
  {
    if cs != {} {
      var c :| c in cs;
      ImageSize(calls, cs - {c});
      var image := set d | d in cs :: calls[d].requestId;
      var rest := set d | d in cs - {c} :: calls[d].requestId;
      assert image == rest + {calls[c].requestId};
    } else {
      assert (set c | c in cs :: calls[c].requestId) == {};
    }
  }

  lemma RevivableExec(s: Sys, c: nat, q: Uuid, l: Uuid, a: AccountId)
    requires Enabled(s, Exec(c, q, l))
    ensures var call, t := s.calls[c], Apply(s, Exec(c, q, l));
            if call.RenewCall? && call.renew.RenewPurge?
            then Revivable(t, a) <= Revivable(s, a) + {call.requestId} &&
                 forall id | id in t.db.requests :: Active(t.db.requests[id], t.clock)
            else Revivable(t, a) <= Revivable(s, a)
  {
    var call, t := s.calls[c], Apply(s, Exec(c, q, l));
    forall id | id in Revivable(t, a) && !(call.RenewCall? && call.renew.RenewPurge? && id == call.requestId)
      ensures id in Revivable(s, a)
    {
      var d :| d in Renewing(t, a) && t.calls[d].requestId == id;
      assert d in Renewing(s, a) && s.calls[d].requestId == id;
    }
  }

  /** What a statement does to the sender's hot rows: only an insert adds one. */
  lemma HotExec(s: Sys, c: nat, q: Uuid, l: Uuid, a: AccountId)
    requires Inv(s) && Enabled(s, Exec(c, q, l))
    ensures var call, t := s.calls[c], Apply(s, Exec(c, q, l));
            if call.SendCall? && call.caller == a && call.send.Insert?
            then Hot(t, a) <= Hot(s, a) + {call.send.ticket.requestId}
            else Hot(t, a) <= Hot(s, a)
  {
    var call := s.calls[c];
    assert CallOk(s, call);
    StatementChanges(s.db, call, s.clock, q, l);
    RevivableExec(s, c, q, l, a);
    if PastPurge(call, a) {
      assert c in Renewing(s, a);
      assert call.requestId in Revivable(s, a);
    }
    hide Next, Revivable, Inv;
  }

  lemma CountedExec(s: Sys, c: nat, q: Uuid, l: Uuid, a: AccountId)
    requires Inv(s) && Enabled(s, Exec(c, q, l))
    ensures var call, t := s.calls[c], Apply(s, Exec(c, q, l));
            if call.SendCall? && call.caller == a && call.send.Insert?
            then c in Counted(s, a) && Counted(t, a) <= Counted(s, a) - {c}
            else if call.SendCall? && call.caller == a && call.send.CountActive? &&
                    |ActiveOf(s.db.requests, a, s.clock)| < ACTIVE_LIMIT
            then Counted(t, a) <= Counted(s, a) + {c}
            else Counted(t, a) <= Counted(s, a)
    ensures s.calls[c].SendCall? ==> Renewing(Apply(s, Exec(c, q, l)), a) == Renewing(s, a)
  {
  }

  /** When a send passes its count, the sends past their count and the renews past their purge pay for the rest. */
  lemma CountPasses(s: Sys, t: Sys, a: AccountId, k: nat)
    requires |ActiveOf(s.db.requests, a, s.clock)| < ACTIVE_LIMIT
    requires Hot(t, a) <= Hot(s, a) && Renewing(t, a) == Renewing(s, a)
    requires |Counted(t, a)| + |Renewing(t, a)| <= k
    ensures |Hot(t, a)| + |Counted(t, a)| <= ACTIVE_LIMIT - 1 + k
  {
    var active, revivable := ActiveOf(s.db.requests, a, s.clock), Revivable(s, a);
    ImageSize(s.calls, Renewing(s, a));
    SubsetSize(Hot(t, a), active + revivable);
    assert |active + revivable| <= |active| + |revivable|;
  }

  /** The statement that lets a send of the sender past its count. */
  ghost predicate Passes(s: Sys, t: Sys, a: AccountId) {
    exists c :: c in s.calls && c in t.calls && PassesAt(s.calls[c], t.calls[c], a)
  }

  predicate PassesAt(before: Call, after: Call, a: AccountId) {
    before.SendCall? && before.caller == a && before.send.CountActive? && PastCount(after, a)
  }

  /** Whenever a send passes its count, at most `k` sends past their count and renews past their purge are under way. */
  ghost predicate CrowdAt(s: Sys, t: Sys, a: AccountId, k: nat) {
    Passes(s, t, a) ==> |Counted(t, a)| + |Renewing(t, a)| <= k
  }

  lemma PotentialExec(s: Sys, c: nat, q: Uuid, l: Uuid, a: AccountId, k: nat)
    requires Inv(s) && Enabled(s, Exec(c, q, l)) && CrowdAt(s, Apply(s, Exec(c, q, l)), a, k)
    requires |Hot(s, a)| + |Counted(s, a)| <= ACTIVE_LIMIT - 1 + k
    ensures var t := Apply(s, Exec(c, q, l)); |Hot(t, a)| + |Counted(t, a)| <= ACTIVE_LIMIT - 1 + k
  {
    var call, t := s.calls[c], Apply(s, Exec(c, q, l));
    HotExec(s, c, q, l, a);
    CountedExec(s, c, q, l, a);
    if call.SendCall? && call.caller == a && call.send.CountActive? &&
       |ActiveOf(s.db.requests, a, s.clock)| < ACTIVE_LIMIT {
      assert PassesAt(s.calls[c], t.calls[c], a);
      hide Next, Hot, Counted, Inv;
      CountPasses(s, t, a, k);
    } else if call.SendCall? && call.caller == a && call.send.Insert? {
      hide Next, Hot, Counted, Inv;
      SubsetSize(Hot(t, a), Hot(s, a) + {call.send.ticket.requestId});
      SubsetSize(Counted(t, a), Counted(s, a) - {c});
    } else {
      hide Next, Hot, Counted, Inv;
      SubsetSize(Hot(t, a), Hot(s, a));
      SubsetSize(Counted(t, a), Counted(s, a));
    }
  }

  lemma PotentialElse(s: Sys, e: Event, a: AccountId)
    requires Inv(s) && Enabled(s, e) && !e.Exec?
    ensures Hot(Apply(s, e), a) <= Hot(s, a) && Counted(Apply(s, e), a) <= Counted(s, a)
  {
    var t := Apply(s, e);
    forall id | id in Hot(t, a) && !Active(t.db.requests[id], t.clock)
      ensures id in Revivable(s, a)
    {
      var d :| d in Renewing(t, a) && t.calls[d].requestId == id;
      assert d in Renewing(s, a) && s.calls[d].requestId == id;
    }
  }

  lemma PotentialStep(s: Sys, t: Sys, a: AccountId, k: nat)
    requires Inv(s) && Step(s, t) && CrowdAt(s, t, a, k)
    requires |Hot(s, a)| + |Counted(s, a)| <= ACTIVE_LIMIT - 1 + k
    ensures |Hot(t, a)| + |Counted(t, a)| <= ACTIVE_LIMIT - 1 + k
  {
    var e :| Enabled(s, e) && t == Apply(s, e);
    hide Inv, Apply, Hot, Counted, CrowdAt;
    if e.Exec? {
      PotentialExec(s, e.c, e.requestId, e.leaseId, a, k);
    } else {
      PotentialElse(s, e, a);
      SubsetSize(Hot(t, a), Hot(s, a));
      SubsetSize(Counted(t, a), Counted(s, a));
    }
  }

  /** At most `k` calls of the sender are past their count or their purge whenever a send passes its count. */
  ghost predicate CrowdAtMost(run: seq<Sys>, a: AccountId, k: nat) {
    forall i | 0 <= i < |run| - 1 :: CrowdAt(run[i], run[i+1], a, k)
  }

  lemma {:induction false} PotentialBounded(run: seq<Sys>, a: AccountId, k: nat, n: nat)
    requires IsRun(run) && n < |run| && CrowdAtMost(run, a, k)
    ensures |Hot(run[n], a)| + |Counted(run[n], a)| <= ACTIVE_LIMIT - 1 + k
  {
    if n == 0 {
      assert Hot(run[0], a) == {} && Counted(run[0], a) == {};
    } else {
      PotentialBounded(run, a, k, n-1);
      RunInv(run, n-1);
      StepAt(run, n-1);
      hide IsRun, Inv, Step, Hot, Counted, CrowdAt;
      PotentialStep(run[n-1], run[n], a, k);
    }
  }

  /**
    If, whenever a send of the sender passes its count, at most `k` of its sends are past their count and of its
    renews past their purge, and everything else is interleaved at will, the sender never has more than 24 + k
    active requests.
   */
  lemma ActiveBounded(run: seq<Sys>, a: AccountId, k: nat, n: nat)
    requires IsRun(run) && n < |run| && CrowdAtMost(run, a, k)
    ensures |ActiveOf(run[n].db.requests, a, run[n].clock)| <= ACTIVE_LIMIT - 1 + k
  {
    PotentialBounded(run, a, k, n);
    SubsetSize(ActiveOf(run[n].db.requests, a, run[n].clock), Hot(run[n], a));
  }

  // ---------------------------------------------------------------- bounds by the calls in flight

  /** At most `k` sends and `m` renews of the sender overlap at any time. */
  ghost predicate OverlapAtMost(run: seq<Sys>, a: AccountId, k: nat, m: nat) {
    forall i | 0 <= i < |run| :: |Sends(run[i], a)| <= k && |Renews(run[i], a)| <= m
  }

  /** While a renew of the sender is past its purge, no other call takes a step: its statements run back to back. */
  ghost predicate RenewsAlone(run: seq<Sys>, a: AccountId) {
    forall i, c | 0 <= i < |run| - 1 && c in Renewing(run[i], a) :: OnlyCall(run[i], run[i+1], c)
  }

  ghost predicate OnlyCall(s: Sys, t: Sys, c: nat) {
    forall d | d != c && d in s.calls && d in t.calls :: t.calls[d] == s.calls[d]
  }

  lemma OverlapBounded(run: seq<Sys>, a: AccountId, k: nat, m: nat, n: nat)
    requires IsRun(run) && n < |run| && OverlapAtMost(run, a, k, m)
    ensures |ActiveOf(run[n].db.requests, a, run[n].clock)| <= ACTIVE_LIMIT - 1 + k + m
  {
    forall i | 0 <= i < |run| - 1
      ensures CrowdAt(run[i], run[i+1], a, k + m)
    {
      SubsetSize(Counted(run[i+1], a), Sends(run[i+1], a));
      SubsetSize(Renewing(run[i+1], a), Renews(run[i+1], a));
    }
    ActiveBounded(run, a, k + m, n);
  }

  /** A send that passes its count while a renew is past its purge has come in between the renew's statements. */
  lemma NoneRenewing(s: Sys, t: Sys, a: AccountId)
    requires Step(s, t) && Passes(s, t, a)
    requires forall c | c in Renewing(s, a) :: OnlyCall(s, t, c)
    ensures Renewing(t, a) == {}
  {
    var d :| d in s.calls && d in t.calls && PassesAt(s.calls[d], t.calls[d], a);
    assert forall c | c in Renewing(s, a) :: c == d;
    assert Renewing(s, a) == {};
    var e :| Enabled(s, e) && t == Apply(s, e);
    assert e.Exec? && e.c == d;
    hide Next;
    assert forall c | c in t.calls && c != d :: t.calls[c] == s.calls[c];
  }

  /**
    With at most `k` overlapping sends of a sender whose renews run back to back, and everything else interleaved at
    will, the sender never has more than 24 + k active requests.
   */
  lemma SendsBounded(run: seq<Sys>, a: AccountId, k: nat, n: nat)
    requires IsRun(run) && n < |run| && RenewsAlone(run, a)
    requires forall i | 0 <= i < |run| :: |Sends(run[i], a)| <= k
    ensures |ActiveOf(run[n].db.requests, a, run[n].clock)| <= ACTIVE_LIMIT - 1 + k
  {
    forall i | 0 <= i < |run| - 1
      ensures CrowdAt(run[i], run[i+1], a, k)
    {
      SubsetSize(Counted(run[i+1], a), Sends(run[i+1], a));
      if Passes(run[i], run[i+1], a) {
        StepAt(run, i);
        NoneRenewing(run[i], run[i+1], a);
      }
    }
    ActiveBounded(run, a, k, n);
  }
}
