/**
 The fault-injecting proxy: handler threads pick a rule and spend from its budget under a
 lock, and append their record outside it.
 */
module FaultProxy {
  import opened Wrappers

  datatype Rule = Rule(verb: string, pattern: string, remaining: int)

  datatype Request = Request(verb: string, path: string)

  datatype Record = Record(number: nat, request: Request, rule: Option<nat>)

  /** A handler between its critical section and its record. */
  datatype Handler = Handler(number: nat, request: Request, rule: Option<nat>)

  datatype State = State(rules: seq<Rule>, records: seq<Record>, handlers: map<nat, Handler>, spent: seq<nat>)

  datatype Event =
    | Arrive(thread: nat, request: Request)
    | Finish(thread: nat)
    | Abort(thread: nat)

  function BeforeQuery(path: string): string {
    if path == [] || path[0] == '?' then [] else [path[0]] + BeforeQuery(path[1..])
  }

  predicate PathMatches(pattern: string, path: string) {
    || pattern == "*"
    || (pattern != [] && pattern[|pattern| - 1] == '*' && pattern[..|pattern| - 1] <= path)
    || pattern == path
  }

  /** A rule applies while its budget is not zero. */
  predicate Applies(rule: Rule, request: Request) {
    rule.remaining != 0 && rule.verb == request.verb && PathMatches(rule.pattern, BeforeQuery(request.path))
  }

  lemma {:induction false} QueryIsCut(base: string, query: string)
    requires '?' !in base
    ensures BeforeQuery(base) == base && BeforeQuery(base + ("?" + query)) == base
    decreases |base|
  {
    if base == [] {
      assert base + ("?" + query) == "?" + query;
    } else {
      assert (base + ("?" + query))[1..] == base[1..] + ("?" + query);
      QueryIsCut(base[1..], query);
    }
  }

  /** The path is the whole pattern, or the pattern is a star, or a stem of the path and a star. */
  ghost predicate Covers(pattern: string, base: string) {
    pattern == "*" || pattern == base || exists stem :: pattern == stem + "*" && stem <= base
  }

  /** A rule applies to a request exactly when it is not used up, has its method and covers its path, whatever the query. */
  lemma AppliesExactly(rule: Rule, verb: string, base: string, query: string)
    requires '?' !in base
    ensures Applies(rule, Request(verb, base)) <==> rule.remaining != 0 && rule.verb == verb && Covers(rule.pattern, base)
    ensures Applies(rule, Request(verb, base + ("?" + query))) <==>
            rule.remaining != 0 && rule.verb == verb && Covers(rule.pattern, base)
  {
    hide BeforeQuery;
    QueryIsCut(base, query);
    var n := |rule.pattern|;
    if n > 0 && rule.pattern[n - 1] == '*' && rule.pattern[..n - 1] <= base {
      assert rule.pattern == rule.pattern[..n - 1] + "*";
    }
    forall stem | rule.pattern == stem + "*" && stem <= base
      ensures PathMatches(rule.pattern, base)
    {
      assert rule.pattern[..n - 1] == stem;
    }
  }

  function FirstRule(rules: seq<Rule>, request: Request, i: nat): (r: Option<nat>)
    requires i <= |rules|
    ensures r.Some? ==> i <= r.value < |rules| && Applies(rules[r.value], request)
    ensures r.Some? ==> forall j :: i <= j < r.value ==> !Applies(rules[j], request)
    ensures r.None? ==> forall j :: i <= j < |rules| ==> !Applies(rules[j], request)
    decreases |rules| - i
  {
    if i == |rules| then None
    else if Applies(rules[i], request) then Some(i)
    else FirstRule(rules, request, i + 1)
  }

  function Start(rules: seq<Rule>): State {
    State(rules, [], map[], seq(|rules|, _ => 0))
  }

  /** Spends one of the rule's budget. */
  function Spend(s: State, i: nat): State
    requires i < |s.rules| == |s.spent|
  {
    s.(rules := s.rules[i := s.rules[i].(remaining := s.rules[i].remaining - 1)],
       spent := s.spent[i := s.spent[i] + 1])
  }

  function Apply(s: State, e: Event): (s': State)
    requires |s.rules| == |s.spent|
    ensures |s'.rules| == |s'.spent| == |s.rules|
  {
    match e
    case Arrive(thread, request) =>
      if thread in s.handlers then s
      else
        var rule := FirstRule(s.rules, request, 0);
        var paid := if rule.Some? then Spend(s, rule.value) else s;
        paid.(handlers := s.handlers[thread := Handler(|s.records| + 1, request, rule)])
    case Finish(thread) =>
      if thread !in s.handlers then s
      else
        var h := s.handlers[thread];
        s.(records := s.records + [Record(h.number, h.request, h.rule)], handlers := s.handlers - {thread})
    case Abort(thread) => s.(handlers := s.handlers - {thread})
  }

  function ApplyAll(s: State, events: seq<Event>): (s': State)
    requires |s.rules| == |s.spent|
    ensures |s'.rules| == |s'.spent| == |s.rules|
    decreases |events|
  {
    if events == [] then s else ApplyAll(Apply(s, events[0]), events[1..])
  }

  // ----- The budget -----

  /** Against the rules the proxy was started with: nothing but budgets changes, and every unit is accounted for. */
  predicate Accounted(initial: seq<Rule>, s: State) {
    && |s.rules| == |s.spent| == |initial|
    && forall i :: 0 <= i < |initial| ==>
         && s.rules[i].(remaining := initial[i].remaining) == initial[i]
         && s.spent[i] == initial[i].remaining - s.rules[i].remaining
         && (initial[i].remaining >= 0 ==> s.rules[i].remaining >= 0)
  }

  lemma {:induction false} BudgetIsConserved(initial: seq<Rule>, s: State, events: seq<Event>)
    requires Accounted(initial, s)
    ensures Accounted(initial, ApplyAll(s, events))
    decreases |events|
  {
    if events != [] {
      BudgetIsConserved(initial, Apply(s, events[0]), events[1..]);
    }
  }

  /** Over every interleaving of handlers, a rule that starts with a budget is spent at most that often. */
  lemma SpentWithinBudget(initial: seq<Rule>, events: seq<Event>, i: nat)
    requires i < |initial| && initial[i].remaining >= 0
    ensures var s := ApplyAll(Start(initial), events);
            |s.spent| == |s.rules| == |initial|
            && 0 <= s.spent[i] == initial[i].remaining - s.rules[i].remaining <= initial[i].remaining
  {
    BudgetIsConserved(initial, Start(initial), events);
  }

  /** `n` requests from `n` new threads. */
  function Flood(request: Request, thread: nat, n: nat): seq<Event>
    decreases n
  {
    if n == 0 then [] else [Arrive(thread, request)] + Flood(request, thread + 1, n - 1)
  }

  lemma SpendKeepsChoice(s: State, request: Request, i: nat)
    requires |s.rules| == |s.spent| && FirstRule(s.rules, request, 0) == Some(i) && s.rules[i].remaining < 0
    ensures FirstRule(Spend(s, i).rules, request, 0) == Some(i) && Spend(s, i).rules[i].remaining < 0
  {
    var rules := Spend(s, i).rules;
    assert Applies(rules[i], request);
    assert forall j :: 0 <= j < i ==> rules[j] == s.rules[j];
    hide Applies;
    assert FirstRule(rules, request, 0) == Some(i);
  }

  /**
   A rule started with a negative budget never runs out: the test is for zero. Among any rules,
   once it is the one a request is given, any number of such requests spends it.
   */
  lemma {:induction false} NegativeBudgetNeverEnds(s: State, request: Request, i: nat, thread: nat, n: nat)
    requires |s.rules| == |s.spent| && FirstRule(s.rules, request, 0) == Some(i) && s.rules[i].remaining < 0
    requires forall t :: t in s.handlers ==> t < thread
    ensures ApplyAll(s, Flood(request, thread, n)).spent[i] == s.spent[i] + n
    decreases n
  {
    hide FirstRule;
    if n > 0 {
      var next := Apply(s, Arrive(thread, request));
      SpendKeepsChoice(s, request, i);
      assert Flood(request, thread, n)[1..] == Flood(request, thread + 1, n - 1);
      NegativeBudgetNeverEnds(next, request, i, thread + 1, n - 1);
    }
  }

  // ----- Faults that reach a record -----

  function Recorded(records: seq<Record>, i: nat): nat {
    if records == [] then 0
    else Recorded(records[..|records| - 1], i) + (if records[|records| - 1].rule == Some(i) then 1 else 0)
  }

  function Holding(handlers: map<nat, Handler>, i: nat): set<nat> {
    set t | t in handlers && handlers[t].rule == Some(i)
  }

  /** Every fault recorded or still in a handler was paid for. */
  predicate Paid(s: State, i: nat) {
    i < |s.rules| == |s.spent| && Recorded(s.records, i) + |Holding(s.handlers, i)| <= s.spent[i]
  }

  lemma HoldingAdd(handlers: map<nat, Handler>, thread: nat, h: Handler, i: nat)
    requires thread !in handlers
    ensures |Holding(handlers[thread := h], i)| == |Holding(handlers, i)| + (if h.rule == Some(i) then 1 else 0)
  {
    var more := Holding(handlers[thread := h], i);
    if h.rule == Some(i) {
      assert more == Holding(handlers, i) + {thread};
    } else {
      assert more == Holding(handlers, i);
    }
  }

  lemma HoldingRemove(handlers: map<nat, Handler>, thread: nat, i: nat)
    ensures |Holding(handlers - {thread}, i)| ==
            |Holding(handlers, i)| - (if thread in handlers && handlers[thread].rule == Some(i) then 1 else 0)
  {
    assert Holding(handlers - {thread}, i) == Holding(handlers, i) - {thread};
    assert thread in Holding(handlers, i) <==> thread in handlers && handlers[thread].rule == Some(i);
  }

  lemma RecordedAppend(records: seq<Record>, r: Record, i: nat)
    ensures Recorded(records + [r], i) == Recorded(records, i) + (if r.rule == Some(i) then 1 else 0)
  {
  }

  lemma StepKeepsPaid(s: State, e: Event, i: nat)
    requires Paid(s, i)
    ensures Paid(Apply(s, e), i)
  {
    hide FirstRule, Applies, Holding, Recorded;
    match e
    case Arrive(thread, request) =>
      if thread !in s.handlers {
        var rule := FirstRule(s.rules, request, 0);
        HoldingAdd(s.handlers, thread, Handler(|s.records| + 1, request, rule), i);
      }
    case Finish(thread) =>
      if thread in s.handlers {
        var h := s.handlers[thread];
        HoldingRemove(s.handlers, thread, i);
        RecordedAppend(s.records, Record(h.number, h.request, h.rule), i);
      }
    case Abort(thread) =>
      HoldingRemove(s.handlers, thread, i);
  }

  lemma {:induction false} RunsKeepPaid(s: State, events: seq<Event>, i: nat)
    requires Paid(s, i)
    ensures Paid(ApplyAll(s, events), i)
    decreases |events|
  {
    if events != [] {
      StepKeepsPaid(s, events[0], i);
      RunsKeepPaid(Apply(s, events[0]), events[1..], i);
    }
  }

  /** A rule never shows in more records than its initial budget allows. */
  lemma RecordedWithinBudget(initial: seq<Rule>, events: seq<Event>, i: nat)
    requires i < |initial| && initial[i].remaining >= 0
    ensures Recorded(ApplyAll(Start(initial), events).records, i) <= initial[i].remaining
  {
    assert Holding(Start(initial).handlers, i) == {};
    RunsKeepPaid(Start(initial), events, i);
    SpentWithinBudget(initial, events, i);
  }

  // ----- Request numbers -----

  /** Each request is finished before the next one arrives. */
  function OneByOne(requests: seq<Request>, thread: nat): seq<Event>
    decreases |requests|
  {
    if requests == [] then [] else [Arrive(thread, requests[0]), Finish(thread)] + OneByOne(requests[1..], thread + 1)
  }

  /** Without overlap the records are numbered from one, in order of arrival. */
  lemma {:induction false} SequentialNumbers(s: State, requests: seq<Request>, thread: nat)
    requires |s.rules| == |s.spent| && s.handlers == map[]
    ensures var s' := ApplyAll(s, OneByOne(requests, thread));
            && |s'.records| == |s.records| + |requests| && s.records <= s'.records
            && forall k :: |s.records| <= k < |s'.records| ==>
                 s'.records[k].number == k + 1 && s'.records[k].request == requests[k - |s.records|]
    decreases |requests|
  {
    if requests != [] {
      var events := OneByOne(requests, thread);
      var s1 := Apply(s, Arrive(thread, requests[0]));
      var s2 := Apply(s1, Finish(thread));
      assert events[1..][1..] == OneByOne(requests[1..], thread + 1);
      assert ApplyAll(s, events) == ApplyAll(s2, OneByOne(requests[1..], thread + 1));
      assert s2.handlers == map[];
      SequentialNumbers(s2, requests[1..], thread + 1);
      var s' := ApplyAll(s, events);
      var n := |s.records|;
      assert s2.records == s.records + [Record(n + 1, requests[0], s1.handlers[thread].rule)];
      assert s'.records[n] == s2.records[n];
    }
  }

  /** The state before event number `i`. */
  function At(s: State, events: seq<Event>, i: nat): State
    requires |s.rules| == |s.spent| && i <= |events|
  {
    ApplyAll(s, events[..i])
  }

  /** Event `i` is a request that gets a handler. */
  predicate ArrivesAt(s: State, events: seq<Event>, i: nat)
    requires |s.rules| == |s.spent| && i < |events|
  {
    events[i].Arrive? && events[i].thread !in At(s, events, i).handlers
  }

  /** Event `i` is a handler appending its record. */
  predicate LandsAt(s: State, events: seq<Event>, i: nat)
    requires |s.rules| == |s.spent| && i < |events|
  {
    events[i].Finish? && events[i].thread in At(s, events, i).handlers
  }

  /** The number that the request arriving at event `i` is given. */
  function NumberAt(s: State, events: seq<Event>, i: nat): nat
    requires |s.rules| == |s.spent| && i < |events| && ArrivesAt(s, events, i)
  {
    Apply(At(s, events, i), events[i]).handlers[events[i].thread].number
  }

  lemma {:induction false} ApplyAppend(s: State, a: seq<Event>, b: seq<Event>)
    requires |s.rules| == |s.spent|
    ensures ApplyAll(s, a + b) == ApplyAll(ApplyAll(s, a), b)
    decreases |a|
  {
    hide Apply;
    if a == [] {
      assert a + b == b;
    } else {
      assert (a + b)[1..] == a[1..] + b;
      ApplyAppend(Apply(s, a[0]), a[1..], b);
    }
  }

  lemma AtNext(s: State, events: seq<Event>, i: nat)
    requires |s.rules| == |s.spent| && i < |events|
    ensures At(s, events, i + 1) == Apply(At(s, events, i), events[i])
  {
    hide Apply;
    assert events[..i + 1] == events[..i] + [events[i]];
    ApplyAppend(s, events[..i], [events[i]]);
    ApplyOne(At(s, events, i), events[i]);
  }

  /** Records only grow, and do so exactly when a handler finishes. */
  lemma {:induction false} RecordsGrow(s: State, events: seq<Event>, i: nat, j: nat)
    requires |s.rules| == |s.spent| && i <= j <= |events|
    ensures |At(s, events, i).records| <= |At(s, events, j).records|
    ensures |At(s, events, i).records| == |At(s, events, j).records| <==> forall k :: i <= k < j ==> !LandsAt(s, events, k)
    decreases j
  {
    hide At, FirstRule;
    if i < j {
      RecordsGrow(s, events, i, j - 1);
      AtNext(s, events, j - 1);
      assert LandsAt(s, events, j - 1) <==> |At(s, events, j).records| != |At(s, events, j - 1).records|;
    }
  }

  /** Two requests of a run get the same number exactly when no handler finishes between their arrivals. */
  lemma OverlapRepeatsNumber(s: State, events: seq<Event>, i: nat, j: nat)
    requires |s.rules| == |s.spent| && i < j < |events| && ArrivesAt(s, events, i) && ArrivesAt(s, events, j)
    ensures NumberAt(s, events, i) == NumberAt(s, events, j) <==> forall k :: i < k < j ==> !LandsAt(s, events, k)
  {
    hide At, FirstRule;
    RecordsGrow(s, events, i, j);
    assert !LandsAt(s, events, i);
  }

  /** Requests `i` and `j` arrive one after the other, with no arrival between them. */
  predicate Consecutive(s: State, events: seq<Event>, i: nat, j: nat)
    requires |s.rules| == |s.spent|
  {
    i < j < |events| && ArrivesAt(s, events, i) && ArrivesAt(s, events, j)
    && forall k :: i < k < j ==> !ArrivesAt(s, events, k)
  }

  lemma {:induction false} NextArrival(s: State, events: seq<Event>, i: nat, j: nat) returns (next: nat)
    requires |s.rules| == |s.spent| && i < j < |events| && ArrivesAt(s, events, i) && ArrivesAt(s, events, j)
    ensures next <= j && Consecutive(s, events, i, next)
    decreases j
  {
    hide ArrivesAt;
    if k: nat :| i < k < j && ArrivesAt(s, events, k) {
      next := NextArrival(s, events, i, k);
    } else {
      next := j;
    }
  }

  /** The numbers of a run are distinct exactly when some handler finishes between any two consecutive arrivals. */
  lemma DistinctNumbersExactly(s: State, events: seq<Event>)
    requires |s.rules| == |s.spent|
    ensures (forall i: nat, j: nat :: i < j < |events| && ArrivesAt(s, events, i) && ArrivesAt(s, events, j) ==>
               NumberAt(s, events, i) != NumberAt(s, events, j))
            <==>
            (forall i: nat, j: nat :: Consecutive(s, events, i, j) ==> exists k :: i < k < j && LandsAt(s, events, k))
  {
    hide ArrivesAt, LandsAt, NumberAt;
    forall i: nat, j: nat | i < j < |events| && ArrivesAt(s, events, i) && ArrivesAt(s, events, j)
      ensures NumberAt(s, events, i) == NumberAt(s, events, j) <==> forall k :: i < k < j ==> !LandsAt(s, events, k)
      ensures exists n: nat :: n <= j && Consecutive(s, events, i, n)
    {
      OverlapRepeatsNumber(s, events, i, j);
      var n := NextArrival(s, events, i, j);
    }
  }

  /** Two handlers that both finish after both arrived leave two records with one number. */
  lemma OverlapIsRecorded(s: State, t: nat, u: nat, a: Request, b: Request)
    requires |s.rules| == |s.spent| && t != u && t !in s.handlers && u !in s.handlers
    ensures var s' := ApplyAll(s, [Arrive(t, a), Arrive(u, b)] + [Finish(t), Finish(u)]);
            var n := |s.records|;
            |s'.records| == n + 2 && s'.records[n].number == s'.records[n + 1].number == n + 1
  {
    hide FirstRule, ApplyAll;
    ApplyAppend(s, [Arrive(t, a), Arrive(u, b)], [Finish(t), Finish(u)]);
    ApplyTwo(s, Arrive(t, a), Arrive(u, b));
    ApplyTwo(Apply(Apply(s, Arrive(t, a)), Arrive(u, b)), Finish(t), Finish(u));
  }

  lemma ApplyTwo(s: State, e: Event, f: Event)
    requires |s.rules| == |s.spent|
    ensures ApplyAll(s, [e, f]) == Apply(Apply(s, e), f)
  {
    hide Apply, ApplyAll;
    assert [e, f] == [e] + [f];
    ApplyAppend(s, [e], [f]);
    ApplyOne(s, e);
    ApplyOne(Apply(s, e), f);
  }

  lemma ApplyOne(s: State, e: Event)
    requires |s.rules| == |s.spent|
    ensures ApplyAll(s, [e]) == Apply(s, e)
  {
    hide Apply;
    assert [e][1..] == [] && ApplyAll(Apply(s, e), []) == Apply(s, e);
  }
}
