/** What holds in every run of the balance queue. */
module BalanceQueueProperties {
  import opened BalanceQueue
  import opened Wrappers

  // ---------- runs ----------

  /** Every event of the run can happen when its turn comes. */
  predicate Possible(s: State, es: seq<Event>)
    decreases |es|
  {
    es == [] || (Enabled(s, es[0]) && Possible(Step(s, es[0]), es[1..]))
  }

  function Run(s: State, es: seq<Event>): State
    requires Possible(s, es)
    decreases |es|
  {
    if es == [] then s else Run(Step(s, es[0]), es[1..])
  }

  function Names(r: seq<Resolved>): (n: seq<string>)
    ensures |n| == |r|
  {
    seq(|r|, k requires 0 <= k < |r| => r[k].name)
  }

  /** The names that were answered, in order. */
  function AnsweredNames(r: seq<Resolved>): seq<string> {
    if r == [] then []
    else AnsweredNames(r[..|r| - 1]) + if r[|r| - 1].fate.Answered? then [r[|r| - 1].name] else []
  }

  // ---------- the protocol ----------

  /** The request flag is up exactly while one reply is in flight or one timer is pending, never
      both and never two; a reply in flight is the one DataMgr waits for and is for the head of
      the queue; every stored answer was
      requested for the account it was stored under; and names resolved, in order, followed by the
      queue are the names ever submitted. */
  ghost predicate Inv(s: State) {
    && (s.requesting <==> s.reply.Some? || s.timers > 0)
    && s.outstanding == (if s.reply.Some? then 1 else 0)
    && s.timers <= 1 && !(s.reply.Some? && s.timers > 0)
    && (s.requesting ==> s.queue != [])
    && (s.reply.Some? ==> s.queue[0] == s.reply.value)
    && Names(s.resolved) + s.queue == s.submitted
    && (forall k :: 0 <= k < |s.stored| ==> s.stored[k].requestedFor == s.stored[k].writtenTo)
    && |s.stored| == |AnsweredNames(s.resolved)|
    && (forall k :: 0 <= k < |s.stored| ==> s.stored[k].writtenTo == AnsweredNames(s.resolved)[k])
  }

  lemma ResolveHead(s: State, fate: Fate)
    requires s.queue != [] && Names(s.resolved) + s.queue == s.submitted
    ensures var r := s.resolved + [Resolved(s.queue[0], fate)];
            && Names(r) + s.queue[1..] == s.submitted
            && AnsweredNames(r) == AnsweredNames(s.resolved) + if fate.Answered? then [s.queue[0]] else []
  {
    var r := s.resolved + [Resolved(s.queue[0], fate)];
    assert Names(r) == Names(s.resolved) + [s.queue[0]];
    assert r[..|r| - 1] == s.resolved;
  }

  lemma StartKeepsInv(s: State)
    requires Inv(s) || (Inv(s.(requesting := true, timers := 1)) && !s.requesting && s.timers == 0)
    ensures Inv(Start(s))
  {
    if !s.requesting && s.queue != [] {
      ResolveHead(s, Dropped);
    }
  }

  lemma SubmitKeepsInv(s: State, name: string)
    requires Inv(s)
    ensures Inv(Submit(s, name))
  {
    var t := s.(queue := s.queue + [name], submitted := s.submitted + [name]);
    assert Names(s.resolved) + t.queue == (Names(s.resolved) + s.queue) + [name];
    StartKeepsInv(t);
  }

  lemma {:induction false} SubmitAllKeepsInv(s: State, names: seq<string>)
    requires Inv(s)
    ensures Inv(SubmitAll(s, names))
    decreases |names|
  {
    if names != [] {
      SubmitKeepsInv(s, names[0]);
      SubmitAllKeepsInv(Submit(s, names[0]), names[1..]);
    }
  }

  lemma StepKeepsInv(s: State, e: Event)
    requires Inv(s) && Enabled(s, e)
    ensures Inv(Step(s, e))
  {
    hide Names, AnsweredNames;
    match e
    case Enqueue(name) => SubmitKeepsInv(s, name);
    case Refresh(page, names) => SubmitAllKeepsInv(s, Wanted(page, names));
    case ReplyFinished(_, _) => ResolveHead(s, Answered);
    case ReplyFailed =>
    case TimerFired => StartKeepsInv(s.(timers := s.timers - 1, requesting := false));
    case AccountsChanged(_) =>
  }

  lemma {:induction false} RunFromKeepsInv(s: State, es: seq<Event>)
    requires Inv(s) && Possible(s, es)
    ensures Inv(Run(s, es))
    decreases |es|
  {
    if es != [] {
      StepKeepsInv(s, es[0]);
      RunFromKeepsInv(Step(s, es[0]), es[1..]);
    }
  }

  /** The protocol invariant, in every run. */
  lemma EveryRun(accounts: set<string>, es: seq<Event>)
    requires Possible(Initial(accounts), es)
    ensures Inv(Run(Initial(accounts), es))
  {
    RunFromKeepsInv(Initial(accounts), es);
  }

  // ---------- the completion signal ----------

  /** The completion signal fires exactly when an answer takes the last name off the queue; it
      starts the refresh timer and leaves nothing in flight. */
  lemma CompletionIff(s: State, e: Event)
    requires Inv(s) && Enabled(s, e)
    ensures var t := Step(s, e);
            && (t.completions == s.completions + 1 <==>
                e.ReplyFinished? && e.document.Some? && |s.queue| == 1)
            && (t.completions == s.completions || t.completions == s.completions + 1)
            && (t.completions > s.completions ==> t.queue == [] && t.refreshing && !t.requesting)
  {
    if e.Refresh? {
      SubmitAllHistory(s, Wanted(e.page, e.names));
    }
  }

  lemma {:induction false} SubmitAllHistory(s: State, names: seq<string>)
    ensures var t := SubmitAll(s, names);
            t.completions == s.completions && t.refreshing == s.refreshing && t.accounts == s.accounts
    decreases |names|
  {
    if names != [] {
      SubmitAllHistory(Submit(s, names[0]), names[1..]);
    }
  }

  // ---------- the refresh timer ----------

  /** The wallet is going to look at balances again without the user's help. */
  predicate Live(s: State) { s.refreshing || s.requesting }

  /** A name the submissions of a refresh will find to be an account when it heads the queue: one
      try for each name submitted, the queue's old names first. */
  predicate FindsAccount(queue: seq<string>, names: seq<string>, accounts: set<string>) {
    exists k :: 0 <= k < |names| && (queue + names)[k] in accounts
  }

  /** From a live state, exactly two things stop the wallet until the user refreshes again: a retry
      that finds its head deleted while the refresh timer is off, and a refresh none of whose tries
      finds an account. */
  lemma StallsIff(s: State, e: Event)
    requires Inv(s) && Live(s) && Enabled(s, e)
    ensures !Live(Step(s, e)) <==>
            || (e.TimerFired? && !s.refreshing && s.queue[0] !in s.accounts)
            || (e.Refresh? && !s.requesting && s.accounts != {} && !e.page.Other?
                && !FindsAccount(s.queue, Wanted(e.page, e.names), s.accounts))
  {
    hide Names, AnsweredNames;
    if e.Refresh? && !s.requesting {
      RefreshStarts(s, Wanted(e.page, e.names));
    }
  }

  lemma {:induction false} RefreshStarts(s: State, names: seq<string>)
    requires !s.requesting
    ensures SubmitAll(s, names).requesting <==> FindsAccount(s.queue, names, s.accounts)
    decreases |names|
  {
    hide Start, Submit, FindsAccount;
    if names == [] {
      NoTries(s.queue, s.accounts);
    } else {
      var t := Submit(s, names[0]);
      OneTry(s, names[0]);
      FirstTry(s.queue, names, s.accounts);
      if t.requesting {
        StaysRequesting(t, names[1..]);
      } else {
        RefreshStarts(t, names[1..]);
      }
    }
  }

  lemma NoTries(queue: seq<string>, accounts: set<string>)
    ensures !FindsAccount(queue, [], accounts)
  {
  }

  /** An idle wallet's submission looks at the head of the queue and either requests or drops it. */
  lemma OneTry(s: State, name: string)
    requires !s.requesting
    ensures var all := s.queue + [name];
            var t := Submit(s, name);
            && t.accounts == s.accounts
            && (t.requesting <==> all[0] in s.accounts)
            && (!t.requesting ==> t.queue == all[1..])
  {
  }

  lemma FirstTry(queue: seq<string>, names: seq<string>, accounts: set<string>)
    requires names != []
    ensures var all := queue + [names[0]];
            FindsAccount(queue, names, accounts) <==> all[0] in accounts || FindsAccount(all[1..], names[1..], accounts)
  {
    var all := queue + [names[0]];
    var q, r := queue + names, all[1..] + names[1..];
    assert q == all + names[1..];
    assert q[0] == all[0] && r == q[1..];
    if k :| 0 <= k < |names| && q[k] in accounts {
      if k > 0 {
        assert r[k - 1] == q[k];
      }
    }
    if k :| 0 <= k < |names[1..]| && r[k] in accounts {
      assert q[k + 1] == r[k];
    }
  }

  lemma {:induction false} StaysRequesting(s: State, names: seq<string>)
    requires s.requesting
    ensures SubmitAll(s, names).requesting
    decreases |names|
  {
    if names != [] {
      StaysRequesting(Submit(s, names[0]), names[1..]);
    }
  }

  // ---------- runs in which queued accounts stay registered ----------

  predicate AllRegistered(s: State) {
    forall k :: 0 <= k < |s.queue| ==> s.queue[k] in s.accounts
  }

  /** The event asks for registered accounts only. */
  predicate AsksRegistered(s: State, e: Event) {
    match e
    case Enqueue(name) => name in s.accounts
    case Refresh(SingleAccount(current), _) => current in s.accounts
    case _ => true
  }

  /** Throughout the run the queue holds registered accounts only. */
  predicate Registered(s: State, es: seq<Event>)
    requires Possible(s, es)
    decreases |es|
  {
    AllRegistered(s) && (es == [] || (AsksRegistered(s, es[0]) && Registered(Step(s, es[0]), es[1..])))
  }

  predicate NothingDropped(s: State) {
    forall k :: 0 <= k < |s.resolved| ==> s.resolved[k].fate.Answered?
  }

  /** While queued accounts stay registered: nothing is dropped, an idle wallet has an empty queue,
      and the refresh timer is off only while a balance query is in progress. */
  lemma {:induction false} RegisteredRun(s: State, es: seq<Event>)
    requires Inv(s) && Possible(s, es) && Registered(s, es)
    requires Live(s) && NothingDropped(s) && (!s.requesting ==> s.queue == [])
    ensures var t := Run(s, es);
            Live(t) && NothingDropped(t) && (!t.requesting ==> t.queue == [])
    decreases |es|
  {
    if es != [] {
      StepKeepsInv(s, es[0]);
      RegisteredStep(s, es[0]);
      RegisteredRun(Step(s, es[0]), es[1..]);
    }
  }

  lemma RegisteredStep(s: State, e: Event)
    requires Inv(s) && Enabled(s, e) && AllRegistered(s) && AsksRegistered(s, e)
    requires Live(s) && NothingDropped(s) && (!s.requesting ==> s.queue == [])
    ensures var t := Step(s, e);
            Live(t) && NothingDropped(t) && (!t.requesting ==> t.queue == [])
  {
    hide Names, AnsweredNames;
    if e.Refresh? {
      SubmitRegistered(s, Wanted(e.page, e.names));
    }
  }

  lemma {:induction false} SubmitRegistered(s: State, names: seq<string>)
    requires AllRegistered(s) && NothingDropped(s) && (!s.requesting ==> s.queue == [])
    requires forall k :: 0 <= k < |names| ==> names[k] in s.accounts
    ensures var t := SubmitAll(s, names);
            NothingDropped(t) && (s.requesting || names != [] ==> t.requesting) && (!t.requesting ==> t.queue == [])
    decreases |names|
  {
    if names != [] {
      SubmitRegistered(Submit(s, names[0]), names[1..]);
    }
  }

  /** The same from the start: in every run where queued accounts stay registered, the refresh timer
      is off only while a query is in progress, and every name submitted is answered or queued. */
  lemma EveryRegisteredRun(accounts: set<string>, es: seq<Event>)
    requires Possible(Initial(accounts), es) && Registered(Initial(accounts), es)
    ensures var t := Run(Initial(accounts), es);
            && (!t.refreshing ==> t.requesting)
            && AnsweredNames(t.resolved) + t.queue == t.submitted
  {
    EveryRun(accounts, es);
    RegisteredRun(Initial(accounts), es);
    AllAnswered(Run(Initial(accounts), es).resolved);
  }

  lemma {:induction false} AllAnswered(r: seq<Resolved>)
    requires forall k :: 0 <= k < |r| ==> r[k].fate.Answered?
    ensures AnsweredNames(r) == Names(r)
  {
    if r != [] {
      AllAnswered(r[..|r| - 1]);
    }
  }

  /** A run of one event more. */
  lemma RunNext(s: State, e: Event, es: seq<Event>)
    requires Enabled(s, e) && Possible(Step(s, e), es)
    ensures Possible(s, [e] + es) && Run(s, [e] + es) == Run(Step(s, e), es)
  {
    hide Enabled, Step;
    assert ([e] + es)[0] == e && ([e] + es)[1..] == es;
  }

  /** Deleting an account while its query waits for a retry leaves the timer off, nothing in flight
      and nothing pending. */
  lemma DeletionStalls(a: string)
    ensures var es := [Refresh(Overview, [a]), ReplyFailed, AccountsChanged({}), TimerFired];
            && Possible(Initial({a}), es)
            && var t := Run(Initial({a}), es); !t.refreshing && !t.requesting && t.outstanding == 0 && t.timers == 0
  {
    hide Possible, Run;
    var e1, e2, e3, e4 := Refresh(Overview, [a]), ReplyFailed, AccountsChanged({}), TimerFired;
    var s0 := Initial({a});
    var s1 := FirstRequest(a);
    var s2 := Step(s1, e2);
    var s3 := Step(s2, e3);
    NoEvents(Step(s3, e4));
    RunNext(s3, e4, []);
    assert [e4] + [] == [e4];
    RunNext(s2, e3, [e4]);
    assert [e3] + [e4] == [e3, e4];
    RunNext(s1, e2, [e3, e4]);
    assert [e2] + [e3, e4] == [e2, e3, e4];
    RunNext(s0, e1, [e2, e3, e4]);
    assert [e1] + [e2, e3, e4] == [e1, e2, e3, e4];
  }

  lemma NoEvents(s: State)
    ensures Possible(s, []) && Run(s, []) == s
  {
  }

  /** A refresh of the only account asks for it and turns the refresh timer off. */
  lemma FirstRequest(a: string) returns (s: State)
    ensures Enabled(Initial({a}), Refresh(Overview, [a]))
    ensures s == Step(Initial({a}), Refresh(Overview, [a]))
    ensures s.(submitted := []) == State([a], true, Some(a), 1, 0, {a}, false, [], [], [], 0)
  {
    var s0 := Initial({a});
    var submitted := Submit(s0, a);
    assert [] + [a] == [a] && [a][1..] == [];
    assert SubmitAll(submitted, []) == submitted;
    assert SubmitAll(s0, [a]) == submitted;
    s := Step(s0, Refresh(Overview, [a]));
  }

  // ---------- progress ----------

  /** Every query under way can be brought to its end: answer what is in flight, let the timer
      fire, and so on. */
  function DrainingRun(s: State, answer: string -> Document, reloaded: set<string>): (es: seq<Event>)
    requires Inv(s) && AllRegistered(s) && s.requesting
    decreases |s.queue|, s.timers
  {
    var e := NextEvent(s, answer, reloaded);
    DrainStep(s, answer, reloaded);
    [e] + if e.ReplyFinished? && |s.queue| == 1 then [] else DrainingRun(Step(s, e), answer, reloaded)
  }

  function NextEvent(s: State, answer: string -> Document, reloaded: set<string>): Event
  {
    if s.reply.Some? then ReplyFinished(Some(answer(s.reply.value)), reloaded) else TimerFired
  }

  lemma DrainStep(s: State, answer: string -> Document, reloaded: set<string>)
    requires Inv(s) && AllRegistered(s) && s.requesting
    ensures var e := NextEvent(s, answer, reloaded);
            && s.queue != [] && Enabled(s, e)
            && var t := Step(s, e);
            && Inv(t) && t.submitted == s.submitted
            && (e.TimerFired? ==> s.timers == 1 && t.reply.Some? && t.timers == 0 && t.queue == s.queue
                                  && t.completions == s.completions && t.resolved == s.resolved)
            && (e.ReplyFinished? ==> t.queue == s.queue[1..] && t.timers == (if |s.queue| == 1 then 0 else 1)
                                     && t.completions == s.completions + (if |s.queue| == 1 then 1 else 0)
                                     && AnsweredNames(t.resolved) == AnsweredNames(s.resolved) + [s.queue[0]])
            && (if e.ReplyFinished? && |s.queue| == 1 then t.refreshing && !t.requesting && t.accounts == reloaded
                else t.requesting && AllRegistered(t))
  {
    hide Names, AnsweredNames;
    var e := NextEvent(s, answer, reloaded);
    StepKeepsInv(s, e);
    ResolveHead(s, Answered);
  }

  /** From any reachable state with a query under way and registered names in the queue, a run of at
      most two events for each name empties the queue, answers every name in it, in order, fires the
      completion signal once, and restarts the refresh timer. */
  lemma {:induction false} NeverStuck(s: State, answer: string -> Document, reloaded: set<string>)
    requires Inv(s) && AllRegistered(s) && s.requesting
    ensures var es := DrainingRun(s, answer, reloaded);
            && Possible(s, es) && |es| == 2 * |s.queue| - (if s.reply.Some? then 1 else 0)
            && var t := Run(s, es);
            && t.queue == [] && !t.requesting && t.outstanding == 0 && t.timers == 0
            && t.refreshing && t.completions == s.completions + 1 && t.accounts == reloaded
            && AnsweredNames(t.resolved) == AnsweredNames(s.resolved) + s.queue
    decreases |s.queue|, s.timers
  {
    hide AnsweredNames, Possible, Run, Step, Enabled, AllRegistered;
    var e := NextEvent(s, answer, reloaded);
    DrainStep(s, answer, reloaded);
    var t := Step(s, e);
    HeadFirst(AnsweredNames(s.resolved), s.queue);
    if e.ReplyFinished? && |s.queue| == 1 {
      NoEvents(t);
      RunNext(s, e, []);
    } else {
      NeverStuck(t, answer, reloaded);
      RunNext(s, e, DrainingRun(t, answer, reloaded));
    }
  }

  lemma HeadFirst(done: seq<string>, queue: seq<string>)
    requires queue != []
    ensures done + queue == (done + [queue[0]]) + queue[1..]
    ensures |queue| == 1 ==> done + queue == done + [queue[0]]
  {
    assert |queue| == 1 ==> queue == [queue[0]];
  }
}
