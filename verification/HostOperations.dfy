/** An idempotent replace and lookup service with retry keys, epochs, a quota and revocation. */
module HostOperations {
  import opened Bytes

  // ---- Numbered names ---------------------------------------------------------

  function Digit(d: nat): char
    requires d < 10
  {
    (48 + d) as char
  }

  function Decimal(n: nat): string
  {
    if n < 10 then [Digit(n)] else Decimal(n / 10) + [Digit(n % 10)]
  }

  function Value(s: string): int
  {
    if s == [] then 0 else Value(s[..|s| - 1]) * 10 + (s[|s| - 1] as int - 48)
  }

  /** Reading back a number undoes writing it. */
  lemma {:induction false} ValueOfDecimal(n: nat)
    ensures Value(Decimal(n)) == n
  {
    if n < 10 {
      assert Decimal(n)[..0] == [];
    } else {
      ValueOfDecimal(n / 10);
      assert Decimal(n)[..|Decimal(n)| - 1] == Decimal(n / 10);
    }
  }

  /** The name of the `n`-th version, operation, epoch or instance. */
  function Named(prefix: string, n: nat): string
  {
    prefix + Decimal(n)
  }

  /** No two numbers share a name. */
  lemma NamedDistinct(prefix: string, m: nat, n: nat)
    ensures Named(prefix, m) == Named(prefix, n) ==> m == n
  {
    ValueOfDecimal(m);
    ValueOfDecimal(n);
    assert Named(prefix, m)[|prefix|..] == Decimal(m) && Named(prefix, n)[|prefix|..] == Decimal(n);
  }

  // ---- The service's state and messages ---------------------------------------

  /** Versions, operations, epochs and instances are held by number; their names are what clients see. */
  datatype File = File(workspace: string, version: nat, data: seq<Byte>)
  datatype Scope = Scope(subject: nat, workspace: string, epoch: string, key: string)
  datatype Params = Params(workspace: string, resource: string, expected: string, epoch: string, key: string, data: string)
  datatype Result = Result(operation: nat, instance: nat, workspace: string, resource: string,
                           previous: string, version: nat, size: nat, digest: seq<Byte>, epoch: string, key: string)
  datatype Entry = Entry(params: Params, result: Result)

  datatype Host = Host(files: map<string, File>, sequence: nat, records: map<Scope, Entry>, epoch: nat,
                       enabled: bool, subject: nat, incarnation: nat)

  datatype Query = ById(operationId: string) | ByRetry(workspace: string, epoch: string, key: string)
  datatype Message = Replace(params: Params) | Get(query: Query) | Other(name: string)

  datatype Code = InvalidRequest | AccessDenied | ExpiredEpoch | OutcomeUnknown | IdempotencyConflict
                | QuotaExceeded | VersionConflict
  datatype Effect = NoEffect | UnknownEffect
  datatype Action = Reconcile | Refresh | FixRequest | RetrySame | Stop
  datatype Answer = Success(result: Result) | Failure(code: Code, effect: Effect, action: Action) | Raised

  /** A refusal with its effect and the action it advises. */
  function Refused(code: Code): (a: Answer)
    ensures a.Failure? && a.code == code && AdviceOk(a)
  {
    var unknown := code in {ExpiredEpoch, OutcomeUnknown};
    Failure(code, if unknown then UnknownEffect else NoEffect,
            if unknown then Reconcile
            else if code == VersionConflict then Refresh
            else if code in {InvalidRequest, IdempotencyConflict} then FixRequest
            else Stop)
  }

  /** The actions the response validator lets each error code advise. */
  function Advisable(code: Code): set<Action>
  {
    match code
    case InvalidRequest => {FixRequest}
    case AccessDenied => {Stop}
    case ExpiredEpoch => {Reconcile, Stop}
    case OutcomeUnknown => {Reconcile, Stop}
    case IdempotencyConflict => {FixRequest, Stop}
    case QuotaExceeded => {RetrySame, Stop}
    case VersionConflict => {Refresh}
  }

  /** The response validator's rule: an unknown effect is admitted where it may be one, and never advises a retry. */
  predicate AdviceOk(a: Answer)
    requires a.Failure?
  {
    && (a.effect == UnknownEffect <==> a.code in {ExpiredEpoch, OutcomeUnknown})
    && (a.effect == UnknownEffect ==> a.action in {Reconcile, Stop})
    && a.action in Advisable(a.code)
  }

  /** What the service is built over: the schema check, base64 decoding and SHA-256. */
  datatype Given = Given(valid: Message -> bool, decode: string -> Option<seq<Byte>>, sha: seq<Byte> -> seq<Byte>)

  const QUOTA := 2

  function Initial(): Host
  {
    Host(map["file_a" := File("workspace_a", 1, []), "file_b" := File("workspace_b", 1, [])], 1, map[], 1, true, 1, 1)
  }

  // ---- Steps ------------------------------------------------------------------

  function Rotated(h: Host): Host
  {
    h.(sequence := h.sequence + 1, epoch := h.sequence + 1, records := map[])
  }

  function Restarted(h: Host): Host
  {
    h.(incarnation := h.incarnation + 1)
  }

  /** An edit takes its number before it looks the file up. */
  function Edited(h: Host, file: string, data: seq<Byte>): Host
  {
    var next := h.(sequence := h.sequence + 1);
    if file !in h.files then next
    else next.(files := h.files[file := File(h.files[file].workspace, h.sequence + 1, data)])
  }

  function ScopeOf(subject: nat, p: Params): Scope
  {
    Scope(subject, p.workspace, p.epoch, p.key)
  }

  /** Why a request whose scope is not retained is refused. */
  function Refusal(h: Host, p: Params): Option<Code>
  {
    if p.resource !in h.files || h.files[p.resource].workspace != p.workspace then Some(AccessDenied)
    else if p.epoch != Named("epoch", h.epoch) then Some(ExpiredEpoch)
    else if |h.records| == QUOTA then Some(QuotaExceeded)
    else if p.expected != Named("v", h.files[p.resource].version) then Some(VersionConflict)
    else None
  }

  /** Whether the request, sent now, would be carried out rather than replayed or refused. */
  predicate Executes(given: Given, h: Host, m: Message)
  {
    && m.Replace? && given.valid(m) && h.enabled
    && ScopeOf(h.subject, m.params) !in h.records
    && Refusal(h, m.params).None? && given.decode(m.params.data).Some?
  }

  function Outcome(given: Given, h: Host, m: Message): Result
    requires Executes(given, h, m)
  {
    var p, data := m.params, given.decode(m.params.data).value;
    Result(h.sequence + 1, h.incarnation, p.workspace, p.resource,
           p.expected, h.sequence + 1, |data|, given.sha(data), p.epoch, p.key)
  }

  function Called(given: Given, h: Host, m: Message): Host
  {
    if !Executes(given, h, m) then h
    else
      Edited(h, m.params.resource, given.decode(m.params.data).value).
        (records := h.records[ScopeOf(h.subject, m.params) := Entry(m.params, Outcome(given, h, m))])
  }

  /** The record a lookup by `subject` is after. */
  predicate Asked(records: map<Scope, Entry>, subject: nat, q: Query, k: Scope)
  {
    && k in records && k.subject == subject
    && match q
       case ById(id) => Named("op", records[k].result.operation) == id
       case ByRetry(workspace, epoch, key) => k.workspace == workspace && k.epoch == epoch && k.key == key
  }

  ghost function Found(h: Host, q: Query): (a: Answer)
    ensures a.Failure? ==> AdviceOk(a)
  {
    if exists k :: Asked(h.records, h.subject, q, k) then
      var k :| Asked(h.records, h.subject, q, k);
      Success(h.records[k].result)
    else Refused(if q.ByRetry? && q.epoch != Named("epoch", h.epoch) then ExpiredEpoch else OutcomeUnknown)
  }

  ghost function Reply(given: Given, h: Host, m: Message): (a: Answer)
    ensures a.Failure? ==> AdviceOk(a)
  {
    if !given.valid(m) then Refused(InvalidRequest)
    else if !h.enabled then Refused(AccessDenied)
    else match m
      case Other(_) => Refused(InvalidRequest)
      case Get(q) => Found(h, q)
      case Replace(p) =>
        var scope := ScopeOf(h.subject, p);
        if scope in h.records then
          if h.records[scope].params != p then Refused(IdempotencyConflict) else Success(h.records[scope].result)
        else if Refusal(h, p).Some? then Refused(Refusal(h, p).value)
        else if given.decode(p.data).None? then Raised
        else Success(Outcome(given, h, m))
  }

  // ---- What every reachable state satisfies -----------------------------------

  ghost predicate EntryOk(k: Scope, e: Entry, epoch: nat, sequence: nat)
  {
    && k == ScopeOf(k.subject, e.params) && k.epoch == Named("epoch", epoch)
    && epoch < e.result.operation <= sequence
  }

  /** The retained records: of the current epoch, numbered since it began, no operation twice. */
  ghost predicate RecordsOk(records: map<Scope, Entry>, epoch: nat, sequence: nat)
  {
    && |records| <= QUOTA
    && (forall k :: k in records ==> EntryOk(k, records[k], epoch, sequence))
    && (forall k, l :: k in records && l in records && records[k].result.operation == records[l].result.operation ==> k == l)
  }

  ghost predicate HostOk(h: Host)
  {
    && 0 < h.epoch <= h.sequence
    && (forall f :: f in h.files ==> 0 < h.files[f].version <= h.sequence)
    && RecordsOk(h.records, h.epoch, h.sequence)
  }

  datatype Step = Call(message: Message) | Edit(file: string, data: seq<Byte>) | Rotate | Restart
                | Enable(on: bool) | Become(subject: nat)

  function Next(given: Given, h: Host, step: Step): Host
  {
    match step
    case Call(m) => Called(given, h, m)
    case Edit(file, data) => Edited(h, file, data)
    case Rotate => Rotated(h)
    case Restart => Restarted(h)
    case Enable(on) => h.(enabled := on)
    case Become(subject) => h.(subject := subject)
  }

  lemma RecordsWider(records: map<Scope, Entry>, epoch: nat, sequence: nat)
    requires RecordsOk(records, epoch, sequence)
    ensures RecordsOk(records, epoch, sequence + 1)
  {
    forall k | k in records ensures EntryOk(k, records[k], epoch, sequence + 1) {
      assert EntryOk(k, records[k], epoch, sequence);
    }
  }

  /** Retaining one more record, under the next operation number, keeps the records sound. */
  lemma RetainOk(records: map<Scope, Entry>, epoch: nat, sequence: nat, scope: Scope, e: Entry)
    requires RecordsOk(records, epoch, sequence) && scope !in records && |records| < QUOTA
    requires EntryOk(scope, e, epoch, sequence + 1) && e.result.operation == sequence + 1
    ensures RecordsOk(records[scope := e], epoch, sequence + 1)
  {
    var next := records[scope := e];
    RecordsWider(records, epoch, sequence);
    assert next.Keys == records.Keys + {scope};
    forall k | k in records ensures records[k].result.operation != sequence + 1 {
      assert EntryOk(k, records[k], epoch, sequence);
    }
  }

  lemma EditOk(h: Host, file: string, data: seq<Byte>)
    requires HostOk(h)
    ensures HostOk(Edited(h, file, data))
  {
    RecordsWider(h.records, h.epoch, h.sequence);
  }

  lemma ExecuteOk(given: Given, h: Host, m: Message)
    requires HostOk(h) && Executes(given, h, m)
    ensures HostOk(Called(given, h, m))
  {
    EditOk(h, m.params.resource, given.decode(m.params.data).value);
    RetainOk(h.records, h.epoch, h.sequence, ScopeOf(h.subject, m.params), Entry(m.params, Outcome(given, h, m)));
  }

  /** Every step keeps the invariant. */
  lemma StepOk(given: Given, h: Host, step: Step)
    requires HostOk(h)
    ensures HostOk(Next(given, h, step))
  {
    match step
    case Call(m) =>
      if Executes(given, h, m) { ExecuteOk(given, h, m); }
    case Edit(file, data) =>
      EditOk(h, file, data);
    case Rotate =>
    case Restart =>
    case Enable(_) =>
    case Become(_) =>
  }

  /** A lookup matches at most one record, whichever way it asks. */
  lemma LookupUnique(h: Host, q: Query, k: Scope, l: Scope)
    requires HostOk(h) && Asked(h.records, h.subject, q, k) && Asked(h.records, h.subject, q, l)
    ensures k == l
  {
    NamedDistinct("op", h.records[k].result.operation, h.records[l].result.operation);
  }

  // ---- Whole runs -------------------------------------------------------------

  ghost predicate StepAt(given: Given, hosts: seq<Host>, steps: seq<Step>, i: int)
  {
    0 <= i < |steps| && i + 1 < |hosts| && hosts[i + 1] == Next(given, hosts[i], steps[i])
  }

  ghost predicate IsRun(given: Given, hosts: seq<Host>, steps: seq<Step>)
  {
    && |hosts| == |steps| + 1
    && forall i :: 0 <= i < |steps| ==> StepAt(given, hosts, steps, i)
  }

  lemma RunStepOk(given: Given, hosts: seq<Host>, steps: seq<Step>, i: nat)
    requires IsRun(given, hosts, steps) && 0 < i <= |steps| && HostOk(hosts[i - 1])
    ensures HostOk(hosts[i])
  {
    StepOk(given, hosts[i - 1], steps[i - 1]);
    assert StepAt(given, hosts, steps, i - 1);
  }

  /** Every state of every run satisfies the invariant. */
  lemma {:induction false} RunOk(given: Given, hosts: seq<Host>, steps: seq<Step>, i: nat)
    requires IsRun(given, hosts, steps) && HostOk(hosts[0]) && i <= |steps|
    ensures HostOk(hosts[i])
    decreases i
  {
    if i > 0 {
      RunOk(given, hosts, steps, i - 1);
      RunStepOk(given, hosts, steps, i);
    }
  }

  lemma SequenceStep(given: Given, h: Host, step: Step)
    ensures h.sequence <= Next(given, h, step).sequence
    ensures Next(given, h, step).epoch == if step.Rotate? then h.sequence + 1 else h.epoch
  {
  }

  lemma {:induction false} SequenceGrows(given: Given, hosts: seq<Host>, steps: seq<Step>, i: nat, j: nat)
    requires IsRun(given, hosts, steps) && i <= j <= |steps|
    ensures hosts[i].sequence <= hosts[j].sequence
    decreases j
  {
    if i < j {
      SequenceGrows(given, hosts, steps, i, j - 1);
      assert StepAt(given, hosts, steps, j - 1);
      SequenceStep(given, hosts[j - 1], steps[j - 1]);
    }
  }

  /** A file keeps its entry or takes a version numbered above everything before. */
  ghost predicate Drifted(a: Host, b: Host, f: string)
  {
    && f in a.files && f in b.files && a.sequence <= b.sequence && a.files[f].workspace == b.files[f].workspace
    && (b.files[f] == a.files[f] || b.files[f].version > a.sequence)
  }

  lemma DriftStep(given: Given, a: Host, b: Host, step: Step, f: string)
    requires Drifted(a, b, f)
    ensures Drifted(a, Next(given, b, step), f)
  {
  }

  lemma {:induction false} Drift(given: Given, hosts: seq<Host>, steps: seq<Step>, i: nat, j: nat, f: string)
    requires IsRun(given, hosts, steps) && i <= j <= |steps| && f in hosts[i].files
    ensures Drifted(hosts[i], hosts[j], f)
    decreases j
  {
    if i < j {
      Drift(given, hosts, steps, i, j - 1, f);
      assert StepAt(given, hosts, steps, j - 1);
      DriftStep(given, hosts[i], hosts[j - 1], steps[j - 1], f);
    }
  }

  /** No ABA: a file seen twice at one version was not touched in between. */
  lemma NoReturn(given: Given, hosts: seq<Host>, steps: seq<Step>, i: nat, k: nat, j: nat, f: string)
    requires IsRun(given, hosts, steps) && HostOk(hosts[0]) && i <= k <= j <= |steps|
    requires f in hosts[i].files && f in hosts[j].files
    requires Named("v", hosts[j].files[f].version) == Named("v", hosts[i].files[f].version)
    ensures f in hosts[k].files && hosts[k].files[f] == hosts[i].files[f]
  {
    RunOk(given, hosts, steps, i);
    NamedDistinct("v", hosts[j].files[f].version, hosts[i].files[f].version);
    Drift(given, hosts, steps, i, k, f);
    Drift(given, hosts, steps, k, j, f);
  }

  /** Once a request was carried out, its file is past the version it expected, for good. */
  lemma PastExpected(given: Given, hosts: seq<Host>, steps: seq<Step>, i: nat, j: nat, m: Message)
    requires IsRun(given, hosts, steps) && i < j <= |steps| && steps[i] == Call(m) && Executes(given, hosts[i], m)
    ensures m.params.resource in hosts[j].files
    ensures hosts[j].files[m.params.resource].version > hosts[i].sequence
  {
    assert StepAt(given, hosts, steps, i);
    Drift(given, hosts, steps, i + 1, j, m.params.resource);
  }

  /** A request is carried out at most once in a run, whoever repeats it and however often the epoch rotates. */
  lemma AtMostOnce(given: Given, hosts: seq<Host>, steps: seq<Step>, i: nat, j: nat, m: Message)
    requires IsRun(given, hosts, steps) && HostOk(hosts[0])
    requires i < j <= |steps| && steps[i] == Call(m) && Executes(given, hosts[i], m)
    ensures !Executes(given, hosts[j], m) && Called(given, hosts[j], m) == hosts[j]
  {
    var f := m.params.resource;
    PastExpected(given, hosts, steps, i, j, m);
    RunOk(given, hosts, steps, i);
    NamedDistinct("v", hosts[j].files[f].version, hosts[i].files[f].version);
  }

  ghost predicate NoRotation(steps: seq<Step>, i: nat, j: nat)
  {
    forall k :: i <= k < j && k < |steps| ==> !steps[k].Rotate?
  }

  lemma {:induction false} RecordStays(given: Given, hosts: seq<Host>, steps: seq<Step>, i: nat, j: nat, scope: Scope)
    requires IsRun(given, hosts, steps) && i <= j <= |steps| && NoRotation(steps, i, j) && scope in hosts[i].records
    ensures scope in hosts[j].records && hosts[j].records[scope] == hosts[i].records[scope]
    decreases j
  {
    if i < j {
      RecordStays(given, hosts, steps, i, j - 1, scope);
      assert StepAt(given, hosts, steps, j - 1);
      assert !steps[j - 1].Rotate?;
    }
  }

  /** A replace that succeeds, freshly or as a replay, is retained with its own request and result. */
  lemma SuccessRetained(given: Given, h: Host, m: Message)
    requires m.Replace? && Reply(given, h, m).Success?
    ensures var next, scope := Called(given, h, m), ScopeOf(h.subject, m.params);
      scope in next.records && next.records[scope] == Entry(m.params, Reply(given, h, m).result)
  {
  }

  lemma SucceededAt(given: Given, hosts: seq<Host>, steps: seq<Step>, i: nat, j: nat, m: Message)
    requires IsRun(given, hosts, steps) && i < j <= |steps| && steps[i] == Call(m) && NoRotation(steps, i + 1, j)
    requires m.Replace? && Reply(given, hosts[i], m).Success?
    ensures var scope := ScopeOf(hosts[i].subject, m.params);
      scope in hosts[j].records && hosts[j].records[scope] == Entry(m.params, Reply(given, hosts[i], m).result)
  {
    assert StepAt(given, hosts, steps, i);
    SuccessRetained(given, hosts[i], m);
    RecordStays(given, hosts, steps, i + 1, j, ScopeOf(hosts[i].subject, m.params));
  }

  /** Until the epoch rotates, repeating a successful request returns its original result and changes nothing. */
  lemma ExactlyOnce(given: Given, hosts: seq<Host>, steps: seq<Step>, i: nat, j: nat, m: Message)
    requires IsRun(given, hosts, steps) && i < j <= |steps| && steps[i] == Call(m) && NoRotation(steps, i + 1, j)
    requires m.Replace? && Reply(given, hosts[i], m).Success?
    requires hosts[j].enabled && hosts[j].subject == hosts[i].subject
    ensures Reply(given, hosts[j], m) == Reply(given, hosts[i], m) && Called(given, hosts[j], m) == hosts[j]
  {
    SucceededAt(given, hosts, steps, i, j, m);
  }

  /** A lookup that can only mean one record answers with it. */
  lemma FindsIt(h: Host, q: Query, k: Scope)
    requires HostOk(h) && Asked(h.records, h.subject, q, k)
    ensures Found(h, q) == Success(h.records[k].result)
  {
    forall l | Asked(h.records, h.subject, q, l) ensures l == k {
      LookupUnique(h, q, l, k);
    }
  }

  /** ... and looking it up, by identity or by retry scope, finds exactly that result. */
  lemma LookupFinds(given: Given, hosts: seq<Host>, steps: seq<Step>, i: nat, j: nat, m: Message, q: Query)
    requires IsRun(given, hosts, steps) && HostOk(hosts[0])
    requires i < j <= |steps| && steps[i] == Call(m) && NoRotation(steps, i + 1, j)
    requires m.Replace? && Reply(given, hosts[i], m).Success?
    requires hosts[j].enabled && hosts[j].subject == hosts[i].subject && given.valid(Get(q))
    requires q == ById(Named("op", Reply(given, hosts[i], m).result.operation))
      || q == ByRetry(m.params.workspace, m.params.epoch, m.params.key)
    ensures Reply(given, hosts[j], Get(q)) == Reply(given, hosts[i], m)
  {
    SucceededAt(given, hosts, steps, i, j, m);
    RunOk(given, hosts, steps, j);
    FindsIt(hosts[j], q, ScopeOf(hosts[i].subject, m.params));
  }

  /** Operation and version names are never reused, not even across rotations. */
  lemma OperationsFresh(given: Given, hosts: seq<Host>, steps: seq<Step>, i: nat, j: nat, m: Message, n: Message)
    requires IsRun(given, hosts, steps) && i < j < |steps| && steps[i] == Call(m) && steps[j] == Call(n)
    requires Executes(given, hosts[i], m) && Executes(given, hosts[j], n)
    ensures Named("op", Outcome(given, hosts[i], m).operation) != Named("op", Outcome(given, hosts[j], n).operation)
    ensures Named("v", Outcome(given, hosts[i], m).version) != Named("v", Outcome(given, hosts[j], n).version)
  {
    assert StepAt(given, hosts, steps, i);
    SequenceGrows(given, hosts, steps, i + 1, j);
    NamedDistinct("op", hosts[i].sequence + 1, hosts[j].sequence + 1);
    NamedDistinct("v", hosts[i].sequence + 1, hosts[j].sequence + 1);
  }

  /** The step gives file `f` a version it did not have, be it by a request or by an edit. */
  ghost predicate Makes(given: Given, h: Host, step: Step, f: string)
  {
    && f in Next(given, h, step).files
    && (f !in h.files || Next(given, h, step).files[f] != h.files[f])
  }

  /** A version made in a run was never any file's version before, whoever makes it and whatever file it is for. */
  lemma VersionsFresh(given: Given, hosts: seq<Host>, steps: seq<Step>, i: nat, f: string, j: nat, g: string)
    requires IsRun(given, hosts, steps) && HostOk(hosts[0]) && i <= j < |steps|
    requires f in hosts[i].files && Makes(given, hosts[j], steps[j], g)
    ensures Named("v", Next(given, hosts[j], steps[j]).files[g].version) != Named("v", hosts[i].files[f].version)
  {
    RunOk(given, hosts, steps, i);
    SequenceGrows(given, hosts, steps, i, j);
    NamedDistinct("v", Next(given, hosts[j], steps[j]).files[g].version, hosts[i].files[f].version);
  }

  lemma {:induction false} EpochDrift(given: Given, hosts: seq<Host>, steps: seq<Step>, i: nat, j: nat)
    requires IsRun(given, hosts, steps) && i <= j <= |steps|
    ensures hosts[j].epoch == hosts[i].epoch || hosts[j].epoch > hosts[i].sequence
    decreases j
  {
    if i < j {
      EpochDrift(given, hosts, steps, i, j - 1);
      assert StepAt(given, hosts, steps, j - 1);
      SequenceGrows(given, hosts, steps, i, j - 1);
      SequenceStep(given, hosts[j - 1], steps[j - 1]);
    }
  }

  /** An epoch that rotated out never comes back. */
  lemma EpochsFresh(given: Given, hosts: seq<Host>, steps: seq<Step>, i: nat, r: nat, j: nat)
    requires IsRun(given, hosts, steps) && HostOk(hosts[0]) && i <= r < j <= |steps| && steps[r].Rotate?
    ensures Named("epoch", hosts[j].epoch) != Named("epoch", hosts[i].epoch)
  {
    assert StepAt(given, hosts, steps, r);
    SequenceGrows(given, hosts, steps, i, r);
    EpochDrift(given, hosts, steps, r + 1, j);
    RunOk(given, hosts, steps, i);
    NamedDistinct("epoch", hosts[j].epoch, hosts[i].epoch);
  }

  // ---- The service object -----------------------------------------------------

  /** Search the retained records in whatever order they are held. */
  method Find(records: map<Scope, Entry>, subject: nat, q: Query) returns (hit: Option<Scope>)
    ensures hit.Some? ==> Asked(records, subject, q, hit.value)
    ensures hit.None? ==> forall k :: !Asked(records, subject, q, k)
  {
    var left := records.Keys;
    while left != {}
      invariant left <= records.Keys
      invariant forall k :: k in records && k !in left ==> !Asked(records, subject, q, k)
      decreases |left|
    {
      var k :| k in left;
      var result := records[k].result;
      if k.subject == subject
        && ((q.ById? && q.operationId == Named("op", result.operation))
            || (q.ByRetry? && q.workspace == k.workspace && q.epoch == k.epoch && q.key == k.key)) {
        return Some(k);
      }
      left := left - {k};
    }
    hit := None;
  }

  class Service {
    const given: Given
    var files: map<string, File>
    var sequence: nat
    var records: map<Scope, Entry>
    var epoch: nat
    var enabled: bool
    var subject: nat
    var incarnation: nat

    ghost function State(): Host
      reads this
    {
      Host(files, sequence, records, epoch, enabled, subject, incarnation)
    }

    constructor (g: Given)
      ensures given == g && State() == Initial() && HostOk(State())
    {
      given := g;
      files := map["file_a" := File("workspace_a", 1, []), "file_b" := File("workspace_b", 1, [])];
      sequence, records, epoch, enabled, subject, incarnation := 1, map[], 1, true, 1, 1;
    }

    method Rotate()
      modifies this
      ensures State() == old(Rotated(State()))
    {
      sequence := sequence + 1;
      epoch, records := sequence, map[];
    }

    method Restart()
      modifies this
      ensures State() == old(Restarted(State()))
    {
      incarnation := incarnation + 1;
    }

    method Edit(file: string, data: seq<Byte>)
      modifies this
      ensures State() == old(Edited(State(), file, data))
    {
      sequence := sequence + 1;
      if file in files {
        files := files[file := File(files[file].workspace, sequence, data)];
      }
    }

    method Lookup(q: Query) returns (answer: Answer)
      requires HostOk(State())
      ensures answer == Found(State(), q)
    {
      var hit := Find(records, subject, q);
      if hit.Some? {
        FindsIt(State(), q, hit.value);
        return Success(records[hit.value].result);
      }
      if q.ByRetry? && q.epoch != Named("epoch", epoch) {
        return Refused(ExpiredEpoch);
      }
      return Refused(OutcomeUnknown);
    }

    method CallReplace(p: Params) returns (answer: Answer)
      requires enabled && given.valid(Replace(p))
      modifies this
      ensures State() == old(Called(given, State(), Replace(p)))
      ensures answer == old(Reply(given, State(), Replace(p)))
    {
      var scope := Scope(subject, p.workspace, p.epoch, p.key);
      if scope in records {
        if records[scope].params != p {
          return Refused(IdempotencyConflict);
        }
        return Success(records[scope].result);
      }
      if p.resource !in files || files[p.resource].workspace != p.workspace {
        return Refused(AccessDenied);
      }
      if p.epoch != Named("epoch", epoch) {
        return Refused(ExpiredEpoch);
      }
      if |records| == QUOTA {
        return Refused(QuotaExceeded);
      }
      if p.expected != Named("v", files[p.resource].version) {
        return Refused(VersionConflict);
      }
      var data := given.decode(p.data);
      if data.None? {
        return Raised;
      }
      Edit(p.resource, data.value);
      var result := Result(sequence, incarnation, p.workspace, p.resource, p.expected,
                           files[p.resource].version, |data.value|, given.sha(data.value), p.epoch, p.key);
      records := records[scope := Entry(p, result)];
      return Success(result);
    }

    /** Serve one message; anything but a success leaves the state alone. */
    method Call(m: Message) returns (answer: Answer)
      requires HostOk(State())
      modifies this
      ensures State() == old(Called(given, State(), m)) && HostOk(State())
      ensures answer == old(Reply(given, State(), m))
      ensures !answer.Success? ==> State() == old(State())
      ensures answer.Failure? ==> AdviceOk(answer)
    {
      StepOk(given, State(), Step.Call(m));
      if !given.valid(m) {
        return Refused(InvalidRequest);
      }
      if !enabled {
        return Refused(AccessDenied);
      }
      match m {
        case Get(q) => answer := Lookup(q);
        case Other(_) => answer := Refused(InvalidRequest);
        case Replace(p) => answer := CallReplace(p);
      }
    }
  }
}
