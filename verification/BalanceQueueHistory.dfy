/** The balance queue against its events: what each event does to the whole state, said without the
    machine's own functions, and what the histories of a run are in terms of its events. */
module BalanceQueueHistory {
  import opened BalanceQueue
  import opened BalanceQueueProperties
  import opened Wrappers

  // ---------- one event ----------

  /** The accounts an event asks for: the one enqueued, and on a refresh that is let through all
      accounts on the overview pages and the current one on the pages of an account. */
  function Asked(s: State, e: Event): seq<string> {
    match e
    case Enqueue(name) => [name]
    case Refresh(page, names) =>
      if s.requesting || s.accounts == {} then []
      else (match page case Overview => names case SingleAccount(current) => [current] case Other => [])
    case _ => []
  }

  /** What an event writes to the data base: an answer is stored, as it came, for the queue's head. */
  function Written(s: State, e: Event): seq<Stored> {
    if e.ReplyFinished? && e.document.Some? && s.queue != [] then
      [Stored(s.queue[0], s.queue[0], e.document.value)]
    else []
  }

  /** Names that leave the queue unanswered. */
  function Dropping(names: seq<string>): (r: seq<Resolved>)
    ensures |r| == |names|
  {
    seq(|names|, k requires 0 <= k < |names| => Resolved(names[k], Dropped))
  }

  /** A reply leaves nothing in flight.  An answer takes the head off the queue; if that empties it,
      the wallet is idle, reloads its accounts and starts the refresh timer, and in all other cases
      a retry is due. */
  lemma ReplyIs(s: State, e: Event)
    requires Inv(s) && Enabled(s, e) && (e.ReplyFinished? || e.ReplyFailed?)
    ensures s.queue != []
    ensures var head, waiting := s.queue[0], s.(reply := None, outstanding := 0);
            Step(s, e) ==
            if e.ReplyFailed? || e.document.None? then waiting.(timers := 1)
            else
              var answered := waiting.(queue := s.queue[1..], resolved := s.resolved + [Resolved(head, Answered)],
                                       stored := s.stored + [Stored(head, head, e.document.value)]);
              if |s.queue| > 1 then answered.(timers := 1)
              else answered.(requesting := false, completions := s.completions + 1,
                             accounts := e.reloaded, refreshing := true)
  {
    hide Names, AnsweredNames;
  }

  /** The retry asks for the head, or drops it if it is no account any more. */
  lemma TimerIs(s: State)
    requires Inv(s) && Enabled(s, TimerFired)
    ensures s.queue != []
    ensures var head := s.queue[0];
            Step(s, TimerFired) ==
            if head in s.accounts then s.(timers := 0, reply := Some(head), outstanding := 1)
            else s.(timers := 0, requesting := false, queue := s.queue[1..],
                    resolved := s.resolved + [Resolved(head, Dropped)])
  {
    hide Names, AnsweredNames;
  }

  /** Asking for names: they are queued, whether the wallet is busy or not.  An idle one tries one
      head for each of them, dropping the `k` that are no accounts, and requests the first that is. */
  lemma AskingIs(s: State, e: Event, k: nat)
    requires Inv(s) && Enabled(s, e) && (e.Enqueue? || e.Refresh?)
    requires var all, n := s.queue + Asked(s, e), |Asked(s, e)|;
             && k <= n && (forall i :: 0 <= i < k ==> all[i] !in s.accounts)
             && (k < n ==> all[k] in s.accounts)
    ensures var all, n := s.queue + Asked(s, e), |Asked(s, e)|;
            var asked := s.(queue := all, submitted := s.submitted + Asked(s, e),
                            refreshing := if RefreshAccepted(s, e) then false else s.refreshing);
            Step(s, e) ==
            if s.requesting then asked
            else
              var tried := asked.(queue := all[k..], resolved := s.resolved + Dropping(all[..k]));
              if k == n then tried
              else tried.(requesting := true, reply := Some(all[k]), outstanding := 1)
  {
    hide Inv, Step, SubmitAll, Asked, RefreshAccepted;
    IdleInv(s);
    StepAsks(s, e);
    if s.requesting {
      SubmitAllBusy(s, Asked(s, e));
    } else {
      SubmitAllIdle(s, Asked(s, e), k);
    }
  }

  /** An event asks for its names one after the other. */
  lemma StepAsks(s: State, e: Event)
    requires Enabled(s, e) && (e.Enqueue? || e.Refresh?)
    ensures var t := SubmitAll(s, Asked(s, e));
            && t.refreshing == s.refreshing
            && Step(s, e) == t.(refreshing := if RefreshAccepted(s, e) then false else s.refreshing)
  {
    hide Submit;
    SubmitAllHistory(s, Asked(s, e));
    if e.Enqueue? {
      AskOne(s, e.name);
    } else if RefreshAccepted(s, e) {
      assert Asked(s, e) == Wanted(e.page, e.names);
    }
  }

  /** A refresh gets through on a page that needs balances, if there are accounts and no query is
      in progress. */
  predicate RefreshAccepted(s: State, e: Event) {
    e.Refresh? && !s.requesting && s.accounts != {} && !e.page.Other?
  }

  lemma IdleInv(s: State)
    requires Inv(s)
    ensures !s.requesting ==> s.outstanding == 0
  {
  }

  lemma AskOne(s: State, name: string)
    ensures SubmitAll(s, [name]) == Submit(s, name)
  {
    assert [name][1..] == [];
  }

  lemma {:induction false} SubmitAllBusy(s: State, names: seq<string>)
    requires s.requesting
    ensures SubmitAll(s, names) == s.(queue := s.queue + names, submitted := s.submitted + names)
    decreases |names|
  {
    if names == [] {
      assert s.queue + [] == s.queue && s.submitted + [] == s.submitted;
    } else {
      SubmitAllBusy(Submit(s, names[0]), names[1..]);
      Front(s.queue, names);
      Front(s.submitted, names);
    }
  }

  lemma Front(a: seq<string>, names: seq<string>)
    requires names != []
    ensures (a + [names[0]]) + names[1..] == a + names
  {
  }

  lemma {:induction false} SubmitAllIdle(s: State, names: seq<string>, k: nat)
    requires !s.requesting && k <= |names|
    requires forall i :: 0 <= i < k ==> (s.queue + names)[i] !in s.accounts
    requires k < |names| ==> (s.queue + names)[k] in s.accounts
    ensures var all := s.queue + names;
            var tried := s.(queue := all[k..], submitted := s.submitted + names,
                            resolved := s.resolved + Dropping(all[..k]));
            SubmitAll(s, names) ==
            if k == |names| then tried
            else tried.(requesting := true, reply := Some(all[k]), outstanding := s.outstanding + 1)
    decreases |names|
  {
    hide Start, Submit, Dropping;
    if names == [] {
      NoneTried(s);
    } else {
      var all := s.queue + names;
      FirstTried(s, names);
      if k == 0 {
        SubmitAllBusy(Submit(s, names[0]), names[1..]);
        NoneDropped(s.resolved, all);
      } else {
        SubmitAllIdle(Submit(s, names[0]), names[1..], k - 1);
        assert all[1..][k - 1..] == all[k..];
        OneDropped(s.resolved, all, k);
      }
    }
  }

  /** An idle wallet's first submission requests the head of the queue, or drops it. */
  lemma FirstTried(s: State, names: seq<string>)
    requires !s.requesting && names != []
    ensures var all, t := s.queue + names, Submit(s, names[0]);
            if all[0] in s.accounts then
              && t.requesting && t.queue + names[1..] == all && t.submitted + names[1..] == s.submitted + names
              && t == s.(queue := t.queue, submitted := t.submitted, requesting := true,
                         reply := Some(all[0]), outstanding := s.outstanding + 1)
            else
              && t.queue + names[1..] == all[1..] && t.submitted + names[1..] == s.submitted + names
              && t == s.(queue := t.queue, submitted := t.submitted,
                         resolved := s.resolved + [Resolved(all[0], Dropped)])
  {
    Front(s.queue, names);
    Front(s.submitted, names);
    assert (s.queue + [names[0]])[0] == (s.queue + names)[0];
  }

  lemma NoneDropped(resolved: seq<Resolved>, all: seq<string>)
    ensures all[0..] == all && resolved + Dropping(all[..0]) == resolved
  {
  }

  lemma NoneTried(s: State)
    ensures SubmitAll(s, []) == s && s.queue + [] == s.queue && s.submitted + [] == s.submitted
    ensures s.queue[0..] == s.queue && s.resolved + Dropping(s.queue[..0]) == s.resolved
  {
  }

  lemma OneDropped(resolved: seq<Resolved>, all: seq<string>, k: nat)
    requires 0 < k <= |all|
    ensures (resolved + [Resolved(all[0], Dropped)]) + Dropping(all[1..][..k - 1]) == resolved + Dropping(all[..k])
  {
    assert Dropping(all[..k]) == [Resolved(all[0], Dropped)] + Dropping(all[1..][..k - 1]);
  }

  // ---------- runs ----------

  function AskedIn(s: State, es: seq<Event>): seq<string>
    requires Possible(s, es)
    decreases |es|
  {
    if es == [] then [] else Asked(s, es[0]) + AskedIn(Step(s, es[0]), es[1..])
  }

  function WrittenIn(s: State, es: seq<Event>): seq<Stored>
    requires Possible(s, es)
    decreases |es|
  {
    if es == [] then [] else Written(s, es[0]) + WrittenIn(Step(s, es[0]), es[1..])
  }

  /** An event adds to the histories what it asks for and what it writes, and nothing else. */
  lemma StepHistory(s: State, e: Event)
    requires Inv(s) && Enabled(s, e)
    ensures Step(s, e).submitted == s.submitted + Asked(s, e)
    ensures Step(s, e).stored == s.stored + Written(s, e)
  {
    hide Inv, Step;
    assert s.submitted + [] == s.submitted && s.stored + [] == s.stored;
    match e
    case ReplyFinished(_, _) => ReplyIs(s, e);
    case ReplyFailed => ReplyIs(s, e);
    case TimerFired => TimerIs(s);
    case AccountsChanged(_) => ChangeIs(s, e);
    case _ =>
      var k := FirstAccount(s.queue + Asked(s, e), |Asked(s, e)|, s.accounts);
      AskingIs(s, e, k);
  }

  lemma ChangeIs(s: State, e: Event)
    requires e.AccountsChanged?
    ensures Step(s, e) == s.(accounts := e.accounts)
  {
  }

  lemma FirstAccount(all: seq<string>, n: nat, accounts: set<string>) returns (k: nat)
    requires n <= |all|
    ensures k <= n && (forall i :: 0 <= i < k ==> all[i] !in accounts) && (k < n ==> all[k] in accounts)
  {
    k := 0;
    while k < n && all[k] !in accounts
      invariant k <= n && forall i :: 0 <= i < k ==> all[i] !in accounts
    {
      k := k + 1;
    }
  }

  lemma {:induction false} RunHistory(s: State, es: seq<Event>)
    requires Inv(s) && Possible(s, es)
    ensures Run(s, es).submitted == s.submitted + AskedIn(s, es)
    ensures Run(s, es).stored == s.stored + WrittenIn(s, es)
    decreases |es|
  {
    hide Inv, Step, Asked, Written;
    if es == [] {
      assert s.submitted + [] == s.submitted && s.stored + [] == s.stored;
    } else {
      StepHistory(s, es[0]);
      StepKeepsInv(s, es[0]);
      RunHistory(Step(s, es[0]), es[1..]);
    }
  }

  /** In every run the names resolved, followed by the queue, are the names its events asked for, and
      the data base holds exactly the answers it received, each for the account it was asked for. */
  lemma EveryRunHistory(accounts: set<string>, es: seq<Event>)
    requires Possible(Initial(accounts), es)
    ensures var s := Initial(accounts);
            var t := Run(s, es);
            && Names(t.resolved) + t.queue == AskedIn(s, es)
            && t.stored == WrittenIn(s, es)
  {
    hide Possible, Run, AskedIn, WrittenIn;
    EveryRun(accounts, es);
    RunHistory(Initial(accounts), es);
    assert [] + AskedIn(Initial(accounts), es) == AskedIn(Initial(accounts), es);
    assert [] + WrittenIn(Initial(accounts), es) == WrittenIn(Initial(accounts), es);
  }
}
