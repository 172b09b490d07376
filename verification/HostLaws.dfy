/** What a client of the service may rely on: what is stored, what an answer is about, and why a request is refused. */
module HostLaws {
  import opened Bytes
  import opened HostOperations

  // ---- What a request stores --------------------------------------------------

  /** The result speaks of this file content and this request. */
  ghost predicate ResultFor(given: Given, p: Params, r: Result)
  {
    && r.workspace == p.workspace && r.resource == p.resource && r.previous == p.expected
    && r.epoch == p.epoch && r.key == p.key
    && given.decode(p.data).Some?
    && r.size == |given.decode(p.data).value| && r.digest == given.sha(given.decode(p.data).value)
  }

  /** Both hosts agree on everything but one file, the retained records and the next number. */
  ghost predicate OnlyFile(a: Host, b: Host, f: string)
  {
    && b.files.Keys == a.files.Keys && (forall g :: g in a.files && g != f ==> b.files[g] == a.files[g])
    && b.epoch == a.epoch && b.enabled == a.enabled && b.subject == a.subject && b.incarnation == a.incarnation
  }

  /** An edit stores the bytes at the next version and touches no other file. */
  lemma EditStores(h: Host, f: string, data: seq<Byte>)
    requires f in h.files
    ensures var next := Edited(h, f, data);
      && OnlyFile(h, next, f) && next.records == h.records
      && next.files[f] == File(h.files[f].workspace, h.sequence + 1, data)
  {
  }

  /**
   * A replace that is carried out stores exactly the decoded bytes in the file it names, in its own workspace, at a
   * version nobody saw before; its result is about those bytes; no other file changes and one record is added.
   */
  lemma ReplaceStores(given: Given, h: Host, m: Message)
    requires Executes(given, h, m)
    ensures var p, next, r := m.params, Called(given, h, m), Outcome(given, h, m);
      && Reply(given, h, m) == Success(r) && ResultFor(given, p, r)
      && p.resource in h.files && h.files[p.resource].workspace == p.workspace
      && OnlyFile(h, next, p.resource) && next.sequence == h.sequence + 1
      && var f := next.files[p.resource];
         && given.decode(p.data) == Some(f.data) && f.workspace == p.workspace
         && f.version == r.version == r.operation == h.sequence + 1
         && r.size == |f.data| && r.digest == given.sha(f.data) && r.instance == h.incarnation
         && next.records == h.records[ScopeOf(h.subject, p) := Entry(p, r)] && ScopeOf(h.subject, p) !in h.records
  {
  }

  /** Wherever a run still has the version a replace made, it has the bytes that replace stored. */
  lemma VersionMeansBytes(given: Given, hosts: seq<Host>, steps: seq<Step>, i: nat, j: nat, m: Message)
    requires IsRun(given, hosts, steps) && HostOk(hosts[0]) && i < j <= |steps|
    requires steps[i] == Call(m) && Executes(given, hosts[i], m) && m.params.resource in hosts[j].files
    requires Named("v", hosts[j].files[m.params.resource].version) == Named("v", Outcome(given, hosts[i], m).version)
    ensures given.decode(m.params.data) == Some(hosts[j].files[m.params.resource].data)
  {
    assert StepAt(given, hosts, steps, i);
    ReplaceStores(given, hosts[i], m);
    NoReturn(given, hosts, steps, i + 1, j, j, m.params.resource);
  }

  // ---- What an answer is about ------------------------------------------------

  /** Every retained result is about the request it is retained for. */
  ghost predicate Truthful(given: Given, h: Host)
  {
    forall k :: k in h.records ==> ResultFor(given, h.records[k].params, h.records[k].result)
  }

  lemma StepTruthful(given: Given, h: Host, step: Step)
    requires Truthful(given, h)
    ensures Truthful(given, Next(given, h, step))
  {
    if step.Call? && Executes(given, h, step.message) {
      ReplaceStores(given, h, step.message);
    }
  }

  /** In every state of every run, retained results are truthful. */
  lemma {:induction false} RunTruthful(given: Given, hosts: seq<Host>, steps: seq<Step>, k: nat)
    requires IsRun(given, hosts, steps) && Truthful(given, hosts[0]) && k <= |steps|
    ensures Truthful(given, hosts[k])
    decreases k
  {
    if k > 0 {
      RunTruthful(given, hosts, steps, k - 1);
      assert StepAt(given, hosts, steps, k - 1);
      StepTruthful(given, hosts[k - 1], steps[k - 1]);
    }
  }

  /** A replace that succeeds, freshly or as a replay, is told about its own content, never about another request's. */
  lemma SuccessIsOurs(given: Given, hosts: seq<Host>, steps: seq<Step>, k: nat, p: Params)
    requires IsRun(given, hosts, steps) && Truthful(given, hosts[0]) && k <= |steps|
    requires Reply(given, hosts[k], Replace(p)).Success?
    ensures ResultFor(given, p, Reply(given, hosts[k], Replace(p)).result)
  {
    RunTruthful(given, hosts, steps, k);
    if Executes(given, hosts[k], Replace(p)) {
      ReplaceStores(given, hosts[k], Replace(p));
    }
  }

  // ---- Which instance answered ------------------------------------------------

  ghost predicate RestartedBetween(steps: seq<Step>, i: nat, k: nat)
    requires k <= |steps|
  {
    exists m :: i <= m < k && steps[m] == Restart
  }

  lemma {:induction false} InstanceGrows(given: Given, hosts: seq<Host>, steps: seq<Step>, i: nat, k: nat)
    requires IsRun(given, hosts, steps) && i <= k <= |steps|
    ensures hosts[i].incarnation <= hosts[k].incarnation
    ensures hosts[i].incarnation == hosts[k].incarnation <==> !RestartedBetween(steps, i, k)
    decreases k
  {
    if i < k {
      InstanceGrows(given, hosts, steps, i, k - 1);
      assert StepAt(given, hosts, steps, k - 1);
    }
  }

  /** Two results name one service instance exactly when the service did not restart between them. */
  lemma InstancesTell(given: Given, hosts: seq<Host>, steps: seq<Step>, i: nat, k: nat, m: Message, n: Message)
    requires IsRun(given, hosts, steps) && i <= k < |steps|
    requires Executes(given, hosts[i], m) && Executes(given, hosts[k], n)
    ensures Outcome(given, hosts[i], m).instance == Outcome(given, hosts[k], n).instance <==> !RestartedBetween(steps, i, k)
  {
    InstanceGrows(given, hosts, steps, i, k);
  }

  // ---- Why a request is refused -----------------------------------------------

  /** The file exists and belongs to the workspace. */
  ghost predicate Reachable(h: Host, p: Params)
  {
    p.resource in h.files && h.files[p.resource].workspace == p.workspace
  }

  ghost predicate Remembered(h: Host, p: Params)
  {
    Scope(h.subject, p.workspace, p.epoch, p.key) in h.records
  }

  /** A valid replace from an enabled subject, whose scope is not retained, that may touch its file. */
  ghost predicate Considered(given: Given, h: Host, p: Params)
  {
    given.valid(Replace(p)) && h.enabled && !Remembered(h, p) && Reachable(h, p)
  }

  /** A valid replace from an enabled subject whose scope is retained. */
  ghost predicate Recalled(given: Given, h: Host, p: Params)
  {
    given.valid(Replace(p)) && h.enabled && Remembered(h, p)
  }

  /** The request expects the version its file is at. */
  ghost predicate UpToDate(h: Host, p: Params)
  {
    p.resource in h.files && p.expected == Named("v", h.files[p.resource].version)
  }

  /** Each refusal of a replace, exactly. */
  lemma ReplaceRefusals(given: Given, h: Host, p: Params)
    ensures var o, valid, current := Reply(given, h, Replace(p)), given.valid(Replace(p)), Named("epoch", h.epoch);
      && (o == Refused(InvalidRequest) <==> !valid)
      && (o == Refused(AccessDenied) <==> valid && (!h.enabled || (!Remembered(h, p) && !Reachable(h, p))))
      && (o == Refused(IdempotencyConflict) <==> Recalled(given, h, p) && h.records[ScopeOf(h.subject, p)].params != p)
      && (o == Refused(ExpiredEpoch) <==> Considered(given, h, p) && p.epoch != current)
      && (o == Refused(QuotaExceeded) <==> Considered(given, h, p) && p.epoch == current && |h.records| == 2)
      && (o == Refused(VersionConflict) <==> Considered(given, h, p) && p.epoch == current && |h.records| != 2 && !UpToDate(h, p))
      && o != Refused(OutcomeUnknown)
  {
  }

  /** And when it is not refused: answered from its record, carried out, or its data does not decode. */
  lemma ReplaceAccepted(given: Given, h: Host, p: Params)
    ensures var o := Reply(given, h, Replace(p));
      && (o.Success? <==> Executes(given, h, Replace(p)) || (Recalled(given, h, p) && h.records[ScopeOf(h.subject, p)].params == p))
      && (Recalled(given, h, p) && o.Success? ==> o.result == h.records[ScopeOf(h.subject, p)].result)
      && var ready := Considered(given, h, p) && p.epoch == Named("epoch", h.epoch) && |h.records| != 2 && UpToDate(h, p);
         && (Executes(given, h, Replace(p)) <==> ready && given.decode(p.data).Some?)
         && (o.Raised? <==> ready && given.decode(p.data).None?)
  {
  }

  /** Each answer of a lookup, exactly: only records of the asking subject are ever shown. */
  lemma LookupAnswers(given: Given, h: Host, q: Query)
    requires HostOk(h)
    ensures var o, allowed := Reply(given, h, Get(q)), given.valid(Get(q)) && h.enabled;
      && (o == Refused(InvalidRequest) <==> !given.valid(Get(q)))
      && (o == Refused(AccessDenied) <==> given.valid(Get(q)) && !h.enabled)
      && (o.Success? <==> allowed && exists k :: Matching(h, q, k))
      && (forall k :: allowed && Matching(h, q, k) ==> o == Success(h.records[k].result))
      && var missed, past := allowed && !(exists k :: Matching(h, q, k)), q.ByRetry? && q.epoch != Named("epoch", h.epoch);
         (o == Refused(ExpiredEpoch) <==> missed && past) && (o == Refused(OutcomeUnknown) <==> missed && !past)
  {
    forall k ensures Matching(h, q, k) <==> Asked(h.records, h.subject, q, k) {
    }
    forall k | Matching(h, q, k) ensures Found(h, q) == Success(h.records[k].result) {
      FindsIt(h, q, k);
    }
  }

  /** A record of the asking subject that the query names. */
  ghost predicate Matching(h: Host, q: Query, k: Scope)
  {
    && k in h.records && k.subject == h.subject
    && (q.ById? ==> q.operationId == Named("op", h.records[k].result.operation))
    && (q.ByRetry? ==> q.workspace == k.workspace && q.epoch == k.epoch && q.key == k.key)
  }
}
