/** Host preparation for SELinux (platforms.py, prepare_host_platform): conflicts are found before
    the first change, and a failure is compensated in reverse order. */
module HostPlatform {
  import opened Wrappers

  /** A local policy entry: a file-context pattern, or a protocol of the DNS cache port. */
  datatype Policy = FileContext(pattern: string) | CachePort(protocol: string)

  /** The entry and the context it must have. */
  datatype Wish = Wish(policy: Policy, context: string)

  const WISHES: seq<Wish> := [
    Wish(FileContext("/etc/vpn-stack/releases(/.*)?/bin(/.*)?"), "bin_t"),
    Wish(FileContext("/etc/vpn-stack/releases(/.*)?/dnsmasq-vpn-stack\\.conf"), "dnsmasq_etc_t"),
    Wish(CachePort("tcp"), "dns_port_t"),
    Wish(CachePort("udp"), "dns_port_t")
  ]

  type Owners = map<Policy, string>

  /** How a command ends: it may report a failure although it took effect. */
  datatype Fault = Go | BeforeEffect | AfterEffect

  datatype Outcome = NotNeeded | Refused(owner: string) | Prepared | Failed(cleanupIncomplete: bool)

  predicate Foreign(owners: Owners, wish: Wish) { wish.policy in owners && owners[wish.policy] != wish.context }

  predicate Conflicts(owners: Owners, wishes: seq<Wish>) { exists i :: 0 <= i < |wishes| && Foreign(owners, wishes[i]) }

  /** The wishes nobody owns yet, in order. */
  function Missing(owners: Owners, wishes: seq<Wish>): seq<Wish> {
    if wishes == [] then []
    else
      Missing(owners, wishes[..|wishes| - 1])
      + if wishes[|wishes| - 1].policy in owners then [] else [wishes[|wishes| - 1]]
  }

  predicate DistinctPolicies(wishes: seq<Wish>) {
    forall i, j :: 0 <= i < j < |wishes| ==> wishes[i].policy != wishes[j].policy
  }

  /** The entries after these wishes have been added. */
  function Added(owners: Owners, wishes: seq<Wish>): Owners {
    if wishes == [] then owners
    else Added(owners, wishes[..|wishes| - 1])[wishes[|wishes| - 1].policy := wishes[|wishes| - 1].context]
  }

  lemma {:induction false} MissingFacts(owners: Owners, wishes: seq<Wish>)
    requires DistinctPolicies(wishes)
    ensures DistinctPolicies(Missing(owners, wishes))
    ensures forall w :: w in Missing(owners, wishes) <==> w in wishes && w.policy !in owners
  {
    if wishes != [] {
      var last := |wishes| - 1;
      MissingFacts(owners, wishes[..last]);
      assert wishes == wishes[..last] + [wishes[last]];
      var before := Missing(owners, wishes[..last]);
      forall k | 0 <= k < |before| ensures before[k].policy != wishes[last].policy {
        assert before[k] in before;
        assert before[k] in wishes[..last];
      }
    }
  }

  lemma {:induction false} AddedFacts(owners: Owners, wishes: seq<Wish>)
    requires DistinctPolicies(wishes)
    ensures forall w :: w in wishes ==>
            w.policy in Added(owners, wishes) && Added(owners, wishes)[w.policy] == w.context
    ensures forall p :: p in Added(owners, wishes) && (forall w :: w in wishes ==> w.policy != p) ==>
      p in owners && Added(owners, wishes)[p] == owners[p]
    ensures owners.Keys <= Added(owners, wishes).Keys
  {
    if wishes != [] {
      var last := |wishes| - 1;
      var shorter := wishes[..last];
      AddedFacts(owners, shorter);
      assert forall w :: w in wishes <==> w in shorter || w == wishes[last] by {
        assert wishes == shorter + [wishes[last]];
      }
      assert Added(owners, wishes) == Added(owners, shorter)[wishes[last].policy := wishes[last].context];
      hide Added;
      forall w | w in shorter ensures w.policy != wishes[last].policy {
        var i :| 0 <= i < last && wishes[i] == w;
      }
    }
  }

  /** Removing the last added entry undoes its addition, when it was missing before. */
  lemma {:induction false} RemovalUndoes(owners: Owners, wishes: seq<Wish>, k: nat)
    requires DistinctPolicies(wishes) && k < |wishes|
    requires forall i :: 0 <= i < |wishes| ==> wishes[i].policy !in owners
    ensures Added(owners, wishes[..k + 1]) - {wishes[k].policy} == Added(owners, wishes[..k])
    ensures wishes[k].policy !in Added(owners, wishes[..k])
  {
    assert wishes[..k + 1][..k] == wishes[..k];
    NotAdded(owners, wishes[..k], wishes[k].policy);
  }

  lemma {:induction false} NotAdded(owners: Owners, wishes: seq<Wish>, policy: Policy)
    requires policy !in owners && forall i :: 0 <= i < |wishes| ==> wishes[i].policy != policy
    ensures policy !in Added(owners, wishes)
  {
    if wishes != [] { NotAdded(owners, wishes[..|wishes| - 1], policy); }
  }

  lemma {:induction false} WishesDistinct()
    ensures DistinctPolicies(WISHES)
  {
  }

  function FaultCount(faults: seq<Fault>): nat {
    if faults == [] then 0 else (if faults[0] == Go then 0 else 1) + FaultCount(faults[1..])
  }

  class HostPolicy {
    var owners: Owners
    var faults: seq<Fault>

    constructor (start: Owners, schedule: seq<Fault>)
      ensures owners == start && faults == schedule
    {
      owners, faults := start, schedule;
    }

    /** One command that changes the policy to next. */
    method Command(next: Owners) returns (fault: Fault)
      modifies this
      ensures owners == if fault == BeforeEffect then old(owners) else next
      ensures FaultCount(old(faults)) == FaultCount(faults) + if fault == Go then 0 else 1
    {
      fault := Go;
      if faults != [] {
        fault := faults[0];
        faults := faults[1..];
      }
      if fault != BeforeEffect { owners := next; }
    }

    /** Adds the missing entries in order; stops at the first command that reports a failure. */
    method Apply(missing: seq<Wish>) returns (applied: nat, fault: Fault)
      modifies this
      ensures applied <= |missing| && (fault == Go <==> applied == |missing|)
      ensures FaultCount(old(faults)) == FaultCount(faults) + if fault == Go then 0 else 1
      ensures owners == Added(old(owners), missing[..if fault == AfterEffect then applied + 1 else applied])
    {
      applied := 0;
      while applied < |missing|
        invariant applied <= |missing| && owners == Added(old(owners), missing[..applied])
        invariant FaultCount(old(faults)) == FaultCount(faults)
      {
        assert missing[..applied + 1][..applied] == missing[..applied];
        fault := Command(owners[missing[applied].policy := missing[applied].context]);
        if fault != Go { return; }
        applied := applied + 1;
      }
      fault := Go;
    }

    /** Removes the applied entries, last first; a failed removal does not stop the others. */
    method Compensate(missing: seq<Wish>, applied: nat) returns (incomplete: bool)
      requires applied <= |missing|
      modifies this
      ensures !incomplete ==> owners == Removed(old(owners), missing, applied)
      ensures incomplete <==> FaultCount(faults) < FaultCount(old(faults))
      ensures forall p :: (forall i :: 0 <= i < applied ==> missing[i].policy != p) ==>
        (p in owners <==> p in old(owners)) && (p in owners ==> owners[p] == old(owners)[p])
    {
      incomplete := false;
      var left: nat := applied;
      while left > 0
        invariant left <= applied
        invariant !incomplete ==> Removed(owners, missing, left) == Removed(old(owners), missing, applied)
        invariant FaultCount(faults) <= FaultCount(old(faults))
        invariant incomplete <==> FaultCount(faults) < FaultCount(old(faults))
        invariant forall p :: (forall i :: 0 <= i < applied ==> missing[i].policy != p) ==>
          (p in owners <==> p in old(owners)) && (p in owners ==> owners[p] == old(owners)[p])
      {
        left := left - 1;
        var fault := Command(owners - {missing[left].policy});
        if fault != Go { incomplete := true; }
      }
    }

    /** The conflict check, the additions, the relabelling and the compensation. */
    method Install(wishes: seq<Wish>) returns (outcome: Outcome, ghost failed: Option<(nat, Fault)>)
      requires DistinctPolicies(wishes)
      modifies this
      ensures outcome != NotNeeded
      ensures outcome.Refused? <==> Conflicts(old(owners), wishes)
      ensures outcome.Refused? ==> owners == old(owners) && faults == old(faults)
      ensures outcome == Prepared ==> owners == Added(old(owners), Missing(old(owners), wishes))
      ensures outcome.Failed? <==> failed.Some?
      ensures failed.Some? ==> failed.value.0 <= |Missing(old(owners), wishes)| && failed.value.1 != Go
      ensures outcome == Failed(false) ==> owners == Leftover(old(owners), Missing(old(owners), wishes), failed.value)
      ensures outcome.Failed? ==> FaultCount(old(faults)) >= if outcome.cleanupIncomplete then 2 else 1
    {
      for i := 0 to |wishes|
        invariant forall k :: 0 <= k < i ==> !Foreign(owners, wishes[k])
      {
        if Foreign(owners, wishes[i]) { return Refused(owners[wishes[i].policy]), None; }
      }
      ghost var before := owners;
      MissingFacts(before, wishes);
      var operations := Missing(owners, wishes);
      hide Missing, DistinctPolicies, Foreign, Added, Removed, FaultCount;
      var applied, fault := Apply(operations);
      if fault == Go {
        fault := Command(owners);
        assert operations[..applied] == operations;
        if fault == Go { return Prepared, None; }
      }
      failed := Some((applied, fault));
      forall i | 0 <= i < |operations| ensures operations[i].policy !in before { assert operations[i] in operations; }
      var incomplete := TakeBack(before, operations, applied, fault);
      outcome := Failed(incomplete);
    }

    /** The compensation after a failed command. */
    method TakeBack(ghost before: Owners, operations: seq<Wish>, applied: nat, ghost fault: Fault)
        returns (incomplete: bool)
      requires DistinctPolicies(operations) && applied <= |operations|
      requires forall i :: 0 <= i < |operations| ==> operations[i].policy !in before
      requires owners == Added(before, operations[..if fault == AfterEffect && applied < |operations| then applied + 1
                                                    else applied])
      modifies this
      ensures !incomplete ==> owners == Leftover(before, operations, (applied, fault))
      ensures incomplete <==> FaultCount(faults) < FaultCount(old(faults))
    {
      hide DistinctPolicies, Added, Removed, FaultCount;
      CompensationRestores(before, operations, applied, fault == AfterEffect && applied < |operations|);
      assert operations[..|operations|] == operations;
      incomplete := Compensate(operations, applied);
    }

    /** prepare_host_platform */
    method Prepare(selinux: bool) returns (outcome: Outcome, ghost failed: Option<(nat, Fault)>)
      modifies this
      ensures outcome == NotNeeded <==> !selinux
      ensures outcome.Refused? <==> selinux && Conflicts(old(owners), WISHES)
      ensures outcome == NotNeeded || outcome.Refused? ==> owners == old(owners) && faults == old(faults)
      ensures outcome == Prepared ==> owners == Added(old(owners), Missing(old(owners), WISHES))
      ensures outcome.Failed? <==> failed.Some?
      ensures failed.Some? ==> failed.value.0 <= |Missing(old(owners), WISHES)| && failed.value.1 != Go
      ensures outcome == Failed(false) ==> owners == Leftover(old(owners), Missing(old(owners), WISHES), failed.value)
      ensures outcome.Failed? ==> FaultCount(old(faults)) >= if outcome.cleanupIncomplete then 2 else 1
    {
      if !selinux { return NotNeeded, None; }
      WishesDistinct();
      hide *;
      outcome, failed := Install(WISHES);
    }
  }

  /** What a complete compensation leaves: the old entries, plus the entry of an addition that took
      effect although it reported a failure, because its removal is never attempted. */
  ghost function Leftover(before: Owners, missing: seq<Wish>, failed: (nat, Fault)): Owners {
    if failed.0 < |missing| && failed.1 == AfterEffect
      then before[missing[failed.0].policy := missing[failed.0].context] else before
  }

  /** The entries left when the first k wishes are removed, last first. */
  function Removed(owners: Owners, wishes: seq<Wish>, k: nat): Owners
    requires k <= |wishes|
  {
    if k == 0 then owners else Removed(owners - {wishes[k - 1].policy}, wishes, k - 1)
  }

  lemma {:induction false} RemovedAll(before: Owners, wishes: seq<Wish>, k: nat)
    requires DistinctPolicies(wishes) && k <= |wishes| && forall i :: 0 <= i < |wishes| ==> wishes[i].policy !in before
    ensures Removed(Added(before, wishes[..k]), wishes, k) == before
  {
    if k > 0 {
      RemovalUndoes(before, wishes, k - 1);
      RemovedAll(before, wishes, k - 1);
    }
  }

  lemma {:induction false} RemovedApart(owners: Owners, wishes: seq<Wish>, k: nat, policy: Policy, context: string)
    requires k <= |wishes| && forall i :: 0 <= i < k ==> wishes[i].policy != policy
    ensures Removed(owners[policy := context], wishes, k) == Removed(owners, wishes, k)[policy := context]
    decreases k
  {
    if k > 0 {
      assert owners[policy := context] - {wishes[k - 1].policy} == (owners - {wishes[k - 1].policy})[policy := context];
      RemovedApart(owners - {wishes[k - 1].policy}, wishes, k - 1, policy, context);
    }
  }

  /** Undoing the applied additions gives back the old entries, and the stuck one. */
  lemma {:induction false} CompensationRestores(before: Owners, wishes: seq<Wish>, applied: nat, stuck: bool)
    requires DistinctPolicies(wishes) && applied <= |wishes| && (stuck ==> applied < |wishes|)
    requires forall i :: 0 <= i < |wishes| ==> wishes[i].policy !in before
    ensures Removed(Added(before, wishes[..if stuck then applied + 1 else applied]), wishes, applied)
      == if stuck then before[wishes[applied].policy := wishes[applied].context] else before
  {
    RemovedAll(before, wishes, applied);
    if stuck {
      assert wishes[..applied + 1][..applied] == wishes[..applied];
      RemovedApart(Added(before, wishes[..applied]), wishes, applied, wishes[applied].policy, wishes[applied].context);
    }
  }

  /** A failed preparation whose compensation is complete leaves the policy as it was exactly when
      no addition took effect while it reported a failure. */
  lemma {:induction false} CleanUnlessStuck(before: Owners, missing: seq<Wish>, failed: (nat, Fault))
    requires failed.0 < |missing| ==> missing[failed.0].policy !in before
    ensures Leftover(before, missing, failed) == before <==> !(failed.0 < |missing| && failed.1 == AfterEffect)
  {
    if failed.0 < |missing| && failed.1 == AfterEffect {
      assert missing[failed.0].policy in Leftover(before, missing, failed);
    }
  }

  /** A preparation adds exactly the missing entries and changes no other, and nothing it wishes
      for is then owned by another context. */
  lemma {:induction false} PreparedMeans(before: Owners, wishes: seq<Wish>)
    requires DistinctPolicies(wishes) && !Conflicts(before, wishes)
    ensures var after := Added(before, Missing(before, wishes));
      && (forall i :: 0 <= i < |wishes| ==> wishes[i].policy in after && after[wishes[i].policy] == wishes[i].context)
      && (forall p :: p in before ==> p in after && after[p] == before[p])
      && (forall p :: p in after && p !in before ==> exists i :: 0 <= i < |wishes| && wishes[i].policy == p)
  {
    var missing := Missing(before, wishes);
    MissingFacts(before, wishes);
    AddedFacts(before, missing);
    var after := Added(before, missing);
    hide Missing, Added, DistinctPolicies;
    forall i | 0 <= i < |wishes| ensures wishes[i].policy in after && after[wishes[i].policy] == wishes[i].context {
      assert wishes[i] in wishes;
      if wishes[i].policy in before { assert !Foreign(before, wishes[i]); }
    }
  }
}
