/** The blkdebug rule chain that fails one chosen device event, as a matcher over event traces. */
module FaultRules {
  import opened Bytes

  const KINDS: set<string> := {"write_aio", "flush_to_disk"}

  datatype Rule =
    | SetState(event: string, state: nat, next: nat)
    | InjectError(event: string, state: nat)

  /** Rule `i` of the chain that fails event `cut`. */
  function RuleAt(events: seq<string>, cut: nat, i: nat): Rule
    requires i <= cut < |events|
  {
    if i < cut then SetState(events[i], i + 1, i + 2) else InjectError(events[cut], cut + 1)
  }

  ghost predicate IsChain(events: seq<string>, cut: int, chain: seq<Rule>)
  {
    && 0 <= cut < |events| && |chain| == cut + 1
    && forall i :: 0 <= i <= cut ==> chain[i] == RuleAt(events, cut, i)
  }

  /** Build the chain; refused for an empty list, an unknown kind or a cut outside the list. */
  method Rules(events: seq<string>, cut: int) returns (chain: Option<seq<Rule>>)
    ensures chain.Some? <==> events != [] && (forall e :: e in events ==> e in KINDS) && 0 <= cut < |events|
    ensures chain.Some? ==> IsChain(events, cut, chain.value)
  {
    if events == [] || exists e :: e in events && e !in KINDS {
      return None;
    }
    if !(0 <= cut < |events|) {
      return None;
    }
    var built: seq<Rule> := [];
    for index := 0 to cut
      invariant |built| == index
      invariant forall i :: 0 <= i < index ==> built[i] == RuleAt(events, cut, i)
    {
      built := built + [SetState(events[index], index + 1, index + 2)];
    }
    built := built + [InjectError(events[cut], cut + 1)];
    chain := Some(built);
  }

  // ---- How the device reacts to the rules -------------------------------------

  /** The current state, and whether the one-shot error has been injected. */
  datatype Machine = Machine(state: nat, fired: bool)

  const START := Machine(1, false)

  /** The state after `event`: the first matching transition, or none. */
  function Moved(chain: seq<Rule>, state: nat, event: string): nat
  {
    if chain == [] then state
    else if chain[0].SetState? && chain[0].event == event && chain[0].state == state then chain[0].next
    else Moved(chain[1..], state, event)
  }

  predicate Fails(chain: seq<Rule>, m: Machine, event: string)
  {
    !m.fired && InjectError(event, m.state) in chain
  }

  function React(chain: seq<Rule>, m: Machine, event: string): Machine
  {
    Machine(Moved(chain, m.state, event), m.fired || Fails(chain, m, event))
  }

  /** The machine after the first `n` events of a trace. */
  function After(chain: seq<Rule>, trace: seq<string>, n: nat): Machine
    requires n <= |trace|
  {
    if n == 0 then START else React(chain, After(chain, trace, n - 1), trace[n - 1])
  }

  predicate FailsAt(chain: seq<Rule>, trace: seq<string>, n: nat)
    requires n < |trace|
  {
    Fails(chain, After(chain, trace, n), trace[n])
  }

  // ---- The matcher the chain implements ---------------------------------------

  /** How much of `pattern` the first `n` events have matched, each event taken as soon as it fits. */
  function Matched(pattern: seq<string>, trace: seq<string>, n: nat): (k: nat)
    requires n <= |trace|
    ensures k <= |pattern| && k <= n
  {
    if n == 0 then 0
    else
      var k := Matched(pattern, trace, n - 1);
      if k < |pattern| && trace[n - 1] == pattern[k] then k + 1 else k
  }

  lemma {:induction false} MovedInChain(events: seq<string>, cut: nat, chain: seq<Rule>, from: nat, state: nat, event: string)
    requires IsChain(events, cut, chain) && from <= cut + 1 && state > from
    ensures Moved(chain[from..], state, event) == if state <= cut && event == events[state - 1] then state + 1 else state
    decreases cut + 1 - from
  {
    if from <= cut {
      assert chain[from..][0] == RuleAt(events, cut, from);
      assert chain[from..][1..] == chain[from + 1..];
      if from < cut && from + 1 == state {
        if event != events[from] {
          NoLaterRule(events, cut, chain, from + 1, state, event);
        }
      } else if from == cut {
        assert chain[from + 1..] == [];
      } else {
        MovedInChain(events, cut, chain, from + 1, state, event);
      }
    }
  }

  /** Rules past a state's own do not mention it. */
  lemma {:induction false} NoLaterRule(events: seq<string>, cut: nat, chain: seq<Rule>, from: nat, state: nat, event: string)
    requires IsChain(events, cut, chain) && from <= cut + 1 && 0 < state <= from
    ensures Moved(chain[from..], state, event) == state
    decreases cut + 1 - from
  {
    if from <= cut {
      assert chain[from..][0] == RuleAt(events, cut, from);
      assert chain[from..][1..] == chain[from + 1..];
      NoLaterRule(events, cut, chain, from + 1, state, event);
    }
  }

  lemma FailsInChain(events: seq<string>, cut: nat, chain: seq<Rule>, m: Machine, event: string)
    requires IsChain(events, cut, chain)
    ensures Fails(chain, m, event) <==> !m.fired && m.state == cut + 1 && event == events[cut]
  {
    if m.state == cut + 1 && event == events[cut] {
      assert chain[cut] == InjectError(event, m.state);
    }
  }

  /** The chain's state counts the matched events, and it has fired once all of them matched. */
  lemma {:induction false} ChainMatches(events: seq<string>, cut: nat, chain: seq<Rule>, trace: seq<string>, n: nat)
    requires IsChain(events, cut, chain) && n <= |trace|
    ensures var k := Matched(events[..cut + 1], trace, n);
      After(chain, trace, n) == Machine(if k <= cut then k + 1 else cut + 1, k == cut + 1)
    decreases n
  {
    if n > 0 {
      ChainMatches(events, cut, chain, trace, n - 1);
      var m := After(chain, trace, n - 1);
      assert chain[0..] == chain;
      MovedInChain(events, cut, chain, 0, m.state, trace[n - 1]);
      FailsInChain(events, cut, chain, m, trace[n - 1]);
    }
  }

  /** An event fails exactly when it completes the match of `events[..cut + 1]`. */
  lemma FailsWhenComplete(events: seq<string>, cut: nat, chain: seq<Rule>, trace: seq<string>, n: nat)
    requires IsChain(events, cut, chain) && n < |trace|
    ensures FailsAt(chain, trace, n) <==>
      Matched(events[..cut + 1], trace, n) == cut && Matched(events[..cut + 1], trace, n + 1) == cut + 1
  {
    ChainMatches(events, cut, chain, trace, n);
    FailsInChain(events, cut, chain, After(chain, trace, n), trace[n]);
  }

  lemma {:induction false} MatchedGrows(pattern: seq<string>, trace: seq<string>, m: nat, n: nat)
    requires m <= n <= |trace|
    ensures Matched(pattern, trace, m) <= Matched(pattern, trace, n)
    decreases n
  {
    if m < n {
      MatchedGrows(pattern, trace, m, n - 1);
    }
  }

  /** At most one event of any trace fails. */
  lemma FailsOnce(events: seq<string>, cut: nat, chain: seq<Rule>, trace: seq<string>, m: nat, n: nat)
    requires IsChain(events, cut, chain) && m < |trace| && n < |trace|
    requires FailsAt(chain, trace, m) && FailsAt(chain, trace, n)
    ensures m == n
  {
    FailsWhenComplete(events, cut, chain, trace, m);
    FailsWhenComplete(events, cut, chain, trace, n);
    if m < n {
      MatchedGrows(events[..cut + 1], trace, m + 1, n);
    } else if n < m {
      MatchedGrows(events[..cut + 1], trace, n + 1, m);
    }
  }

  // ---- The earliest match -----------------------------------------------------

  /** `at` places every element of `pattern` in the first `n` events, in order. */
  ghost predicate Embeds(pattern: seq<string>, trace: seq<string>, n: nat, at: seq<nat>)
  {
    && |at| == |pattern|
    && (forall i :: 0 <= i < |at| ==> at[i] < n && at[i] < |trace| && trace[at[i]] == pattern[i])
    && (forall i, j :: 0 <= i < j < |at| ==> at[i] < at[j])
  }

  /** `pattern` is a subsequence of the first `n` events. */
  ghost predicate Contained(pattern: seq<string>, trace: seq<string>, n: nat)
  {
    exists at :: Embeds(pattern, trace, n, at)
  }

  /** The matcher is never behind any other way to place the pattern. */
  lemma {:induction false} GreedyAhead(pattern: seq<string>, trace: seq<string>, at: seq<nat>, k: nat)
    requires k < |pattern| && Embeds(pattern, trace, |trace|, at)
    ensures Matched(pattern, trace, at[k] + 1) > k
    decreases k
  {
    var before := if k == 0 then 0 else at[k - 1] + 1;
    if k > 0 {
      GreedyAhead(pattern, trace, at, k - 1);
    }
    MatchedGrows(pattern, trace, before, at[k]);
  }

  lemma {:induction false} MatchedEmbeds(pattern: seq<string>, trace: seq<string>, n: nat) returns (at: seq<nat>)
    requires n <= |trace|
    ensures Embeds(pattern[..Matched(pattern, trace, n)], trace, n, at)
    decreases n
  {
    if n == 0 {
      at := [];
    } else {
      at := MatchedEmbeds(pattern, trace, n - 1);
      if Matched(pattern, trace, n) != Matched(pattern, trace, n - 1) {
        at := at + [n - 1];
      }
    }
  }

  /** The failing event is the one that completes the earliest subsequence match: by then there is one, before then none. */
  lemma FailsAtEarliest(events: seq<string>, cut: nat, chain: seq<Rule>, trace: seq<string>, n: nat)
    requires IsChain(events, cut, chain) && n < |trace|
    ensures FailsAt(chain, trace, n) <==>
      Contained(events[..cut + 1], trace, n + 1) && !Contained(events[..cut + 1], trace, n)
  {
    FailsWhenComplete(events, cut, chain, trace, n);
    CompleteIffEmbeds(events[..cut + 1], trace, n);
    CompleteIffEmbeds(events[..cut + 1], trace, n + 1);
  }

  lemma CompleteIffEmbeds(pattern: seq<string>, trace: seq<string>, n: nat)
    requires n <= |trace| && pattern != []
    ensures Matched(pattern, trace, n) == |pattern| <==> Contained(pattern, trace, n)
  {
    if at :| Embeds(pattern, trace, n, at) {
      var last := |pattern| - 1;
      GreedyAhead(pattern, trace, at, last);
      MatchedGrows(pattern, trace, at[last] + 1, n);
    }
    if Matched(pattern, trace, n) == |pattern| {
      var at := MatchedEmbeds(pattern, trace, n);
      assert pattern[..|pattern|] == pattern;
    }
  }

  // ---- The expected trace -----------------------------------------------------

  /** The write and flush events among the first `n`. */
  function Relevant(trace: seq<string>, n: nat): (r: seq<string>)
    requires n <= |trace|
  {
    if n == 0 then []
    else Relevant(trace, n - 1) + (if trace[n - 1] in KINDS then [trace[n - 1]] else [])
  }

  lemma {:induction false} RelevantGrows(trace: seq<string>, m: nat, n: nat)
    requires m <= n <= |trace|
    ensures Relevant(trace, m) <= Relevant(trace, n)
    decreases n
  {
    if m < n {
      RelevantGrows(trace, m, n - 1);
    }
  }

  /** While the device follows the expected list, every relevant event is matched. */
  lemma {:induction false} FollowsExpected(events: seq<string>, cut: nat, trace: seq<string>, n: nat)
    requires cut < |events| && n <= |trace| && (forall e :: e in events ==> e in KINDS)
    requires Relevant(trace, n) <= events[..cut + 1]
    ensures Matched(events[..cut + 1], trace, n) == |Relevant(trace, n)|
    decreases n
  {
    if n > 0 {
      RelevantGrows(trace, n - 1, n);
      FollowsExpected(events, cut, trace, n - 1);
      var k := |Relevant(trace, n - 1)|;
      if trace[n - 1] in KINDS {
        assert Relevant(trace, n)[k] == events[..cut + 1][k];
      } else {
        assert k < cut + 1 ==> events[..cut + 1][k] in events;
      }
    }
  }

  lemma CompletesAtCut(events: seq<string>, cut: nat, trace: seq<string>, n: nat)
    requires cut < |events| && (forall e :: e in events ==> e in KINDS)
    requires n < |trace| && Relevant(trace, n) == events[..cut] && trace[n] == events[cut]
    ensures Matched(events[..cut + 1], trace, n) == cut && Matched(events[..cut + 1], trace, n + 1) == cut + 1
  {
    assert events[..cut + 1] == events[..cut] + [events[cut]];
    FollowsExpected(events, cut, trace, n);
  }

  /** On the expected events, with anything irrelevant in between, exactly the first `cut` succeed before the error. */
  lemma FailsAtCut(events: seq<string>, cut: nat, chain: seq<Rule>, trace: seq<string>, n: nat)
    requires IsChain(events, cut, chain) && (forall e :: e in events ==> e in KINDS)
    requires n < |trace| && Relevant(trace, n) == events[..cut] && trace[n] == events[cut]
    ensures FailsAt(chain, trace, n)
    ensures forall m: nat :: m < n ==> !FailsAt(chain, trace, m)
  {
    CompletesAtCut(events, cut, trace, n);
    FailsWhenComplete(events, cut, chain, trace, n);
    forall m: nat | m < n ensures !FailsAt(chain, trace, m) {
      if FailsAt(chain, trace, m) {
        FailsOnce(events, cut, chain, trace, m, n);
        assert false;
      }
    }
  }
}
