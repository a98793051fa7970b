/** The balance queries of DataMgr (datamgr.cpp) and the auto-refresh timer of Frame (frame.cpp)
    that drives them: one queue of account names, at most one request in flight, retries after a
    100 ms single-shot timer.

    First the protocol as a state machine over the events the toolkit delivers, then the code as
    a class whose methods are proved to take exactly the machine's steps. */
module BalanceQueue {
  import opened Wrappers

  /** A parsed answer of the server. */
  type Document = map<string, real>

  /** How a name left the queue: with an answer, or because it was no longer an account. */
  datatype Fate = Answered | Dropped

  datatype Resolved = Resolved(name: string, fate: Fate)

  /** An answer written to the data base: the account it was requested for, the account it was
      written to, and what was written. */
  datatype Stored = Stored(requestedFor: string, writtenTo: string, document: Document)

  /** `reply` is the account of the request that DataMgr is waiting for, and `outstanding` counts
      the requests the network has not answered; `timers` counts pending single-shot timers; the
      last four fields are history. */
  datatype State = State(
    queue: seq<string>,
    requesting: bool,
    reply: Option<string>,
    outstanding: nat,
    timers: nat,
    accounts: set<string>,
    refreshing: bool,
    submitted: seq<string>,
    resolved: seq<Resolved>,
    stored: seq<Stored>,
    completions: nat)

  /** The page shown, as far as a refresh depends on it. */
  datatype Page = Overview | SingleAccount(current: string) | Other

  /** What the toolkit or the user does.  A failed reply emits `error` and then `finished`. */
  datatype Event =
    | Enqueue(name: string)
    | Refresh(page: Page, names: seq<string>)
    | ReplyFinished(document: Option<Document>, reloaded: set<string>)
    | ReplyFailed
    | TimerFired
    | AccountsChanged(accounts: set<string>)

  /** Replies and timers only fire while pending; a refresh walks the accounts in the map's order. */
  predicate Enabled(s: State, e: Event) {
    match e
    case ReplyFinished(_, _) => s.outstanding > 0
    case ReplyFailed => s.outstanding > 0
    case TimerFired => s.timers > 0
    case Refresh(_, names) => Listing(names, s.accounts)
    case _ => true
  }

  predicate Listing(names: seq<string>, accounts: set<string>) {
    && (forall k :: 0 <= k < |names| ==> names[k] in accounts)
    && (forall a :: a in accounts ==> a in names)
  }

  /** startQueryBalance. */
  function Start(s: State): State {
    if s.requesting || s.queue == [] then s
    else if s.queue[0] !in s.accounts then
      s.(queue := s.queue[1..], resolved := s.resolved + [Resolved(s.queue[0], Dropped)])
    else s.(requesting := true, reply := Some(s.queue[0]), outstanding := s.outstanding + 1)
  }

  /** walletAccountBalance. */
  function Submit(s: State, name: string): State {
    Start(s.(queue := s.queue + [name], submitted := s.submitted + [name]))
  }

  function SubmitAll(s: State, names: seq<string>): State
    decreases |names|
  {
    if names == [] then s else SubmitAll(Submit(s, names[0]), names[1..])
  }

  /** The names a refresh asks for. */
  function Wanted(page: Page, names: seq<string>): seq<string> {
    match page
    case Overview => names
    case SingleAccount(current) => [current]
    case Other => []
  }

  /** Frame::getAccountInfo: ask for the page's accounts and stop the refresh timer. */
  function DoRefresh(s: State, page: Page, names: seq<string>): State {
    if s.requesting || s.accounts == {} || page.Other? then s
    else SubmitAll(s, Wanted(page, names)).(refreshing := false)
  }

  /** qureyBalanceHttpFinished; the completion signal makes Frame reload
      the accounts and restart its timer. */
  function Finish(s: State, document: Option<Document>, reloaded: set<string>): State {
    if !s.requesting || s.reply.None? then s
    else
      var t := s.(reply := None);
      var u :=
        if document.None? || s.queue == [] then t
        else t.(queue := s.queue[1..],
                resolved := s.resolved + [Resolved(s.queue[0], Answered)],
                stored := s.stored + [Stored(s.reply.value, s.queue[0], document.value)]);
      if u.queue == [] then
        u.(requesting := false, completions := u.completions + 1, accounts := reloaded, refreshing := true)
      else u.(timers := u.timers + 1)
  }

  /** qureyBalanceHttpError. */
  function Fail(s: State): State {
    if s.reply.None? then s else s.(reply := None, timers := s.timers + 1)
  }

  function Step(s: State, e: Event): State
    requires Enabled(s, e)
  {
    match e
    case Enqueue(name) => Submit(s, name)
    case Refresh(page, names) => DoRefresh(s, page, names)
    case ReplyFinished(document, reloaded) => Finish(s.(outstanding := s.outstanding - 1), document, reloaded)
    case ReplyFailed => Fail(s.(outstanding := s.outstanding - 1))
    case TimerFired => Start(s.(timers := s.timers - 1, requesting := false))
    case AccountsChanged(accounts) => s.(accounts := accounts)
  }

  function Initial(accounts: set<string>): State {
    State([], false, None, 0, 0, accounts, true, [], [], [], 0)
  }

  // ---------- the code ----------

  /** A QNetworkReply, identified with the account its URL was made for. */
  class Reply {
    const account: string

    constructor (account: string)
      ensures this.account == account
    {
      this.account := account;
    }
  }

  class DataMgr {
    var queryBalanceQueue: seq<string>
    var isRequestingBalance: bool
    var queryBalanceReply: Reply?
    var accountInfoMap: set<string>
    var singleShotTimers: nat
    var timerForAutoRefresh: bool
    ghost var outstanding: nat
    ghost var submitted: seq<string>
    ghost var resolved: seq<Resolved>
    ghost var stored: seq<Stored>
    ghost var completions: nat

    ghost function Now(): State
      reads this
    {
      State(queryBalanceQueue, isRequestingBalance,
            if queryBalanceReply == null then None else Some(queryBalanceReply.account),
            outstanding, singleShotTimers, accountInfoMap, timerForAutoRefresh,
            submitted, resolved, stored, completions)
    }

    constructor (accounts: set<string>)
      ensures Now() == Initial(accounts)
    {
      queryBalanceQueue, isRequestingBalance, queryBalanceReply := [], false, null;
      accountInfoMap, singleShotTimers, timerForAutoRefresh := accounts, 0, true;
      outstanding, submitted, resolved, stored, completions := 0, [], [], [], 0;
    }

    method StartQueryBalance()
      modifies this
      ensures Now() == Start(old(Now()))
    {
      if isRequestingBalance {
        return;
      }
      if |queryBalanceQueue| > 0 {
        if queryBalanceQueue[0] !in accountInfoMap {
          resolved := resolved + [Resolved(queryBalanceQueue[0], Dropped)];
          queryBalanceQueue := queryBalanceQueue[1..];
          return;
        }
        isRequestingBalance := true;
        queryBalanceReply := new Reply(queryBalanceQueue[0]);
        outstanding := outstanding + 1;
      }
    }

    method WalletAccountBalance(accountName: string)
      modifies this
      ensures Now() == Submit(old(Now()), accountName)
    {
      queryBalanceQueue := queryBalanceQueue + [accountName];
      submitted := submitted + [accountName];
      StartQueryBalance();
    }

    /** Frame::getAccountInfo; `names` is the account map in its own order. */
    method GetAccountInfo(page: Page, names: seq<string>)
      requires Enabled(Now(), Refresh(page, names))
      modifies this
      ensures Now() == Step(old(Now()), Refresh(page, names))
    {
      hide Submit;
      if !isRequestingBalance {
        if accountInfoMap == {} {
          return;
        }
        ghost var s := Now();
        match page
        case Overview =>
          assert names[0..] == names;
          for i := 0 to |names|
            invariant SubmitAll(Now(), names[i..]) == SubmitAll(s, names)
          {
            assert names[i..][1..] == names[i + 1..];
            WalletAccountBalance(names[i]);
          }
          assert names[|names|..] == [];
          timerForAutoRefresh := false;
        case SingleAccount(current) =>
          WalletAccountBalance(current);
          assert SubmitAll(s, [current]) == Now();
          timerForAutoRefresh := false;
        case Other =>
      }
    }

    /** Frame::walletAccountBalance, called by the completion signal. */
    method OnWalletAccountBalance(reloaded: set<string>)
      modifies this
      ensures Now() == old(Now()).(accounts := reloaded, refreshing := true)
    {
      accountInfoMap := reloaded;
      timerForAutoRefresh := true;
    }

    method QueryBalanceHttpFinished(document: Option<Document>, reloaded: set<string>)
      requires queryBalanceReply != null && isRequestingBalance ==> queryBalanceQueue != []
      modifies this
      ensures Now() == Finish(old(Now()), document, reloaded)
    {
      if !isRequestingBalance {
        return;
      }
      if queryBalanceReply == null {
        return;
      }
      ghost var requestedFor := queryBalanceReply.account;
      queryBalanceReply := null;
      if document.Some? {
        var accountName := queryBalanceQueue[0];
        queryBalanceQueue := queryBalanceQueue[1..];
        resolved := resolved + [Resolved(accountName, Answered)];
        stored := stored + [Stored(requestedFor, accountName, document.value)];
      }
      if |queryBalanceQueue| == 0 {
        isRequestingBalance := false;
        completions := completions + 1;
        OnWalletAccountBalance(reloaded);
      } else {
        singleShotTimers := singleShotTimers + 1;
      }
    }

    method QueryBalanceHttpError()
      modifies this
      ensures queryBalanceReply == null && Now() == Fail(old(Now()))
    {
      if queryBalanceReply == null {
        return;
      }
      queryBalanceReply := null;
      singleShotTimers := singleShotTimers + 1;
    }

    /** The network layer's delivery of an answer. */
    method DeliverAnswer(document: Option<Document>, reloaded: set<string>)
      requires outstanding > 0 && (queryBalanceReply != null && isRequestingBalance ==> queryBalanceQueue != [])
      modifies this
      ensures Now() == Step(old(Now()), ReplyFinished(document, reloaded))
    {
      outstanding := outstanding - 1;
      QueryBalanceHttpFinished(document, reloaded);
    }

    /** The network layer's delivery of a failure: `error`, then `finished`, which finds no reply
        any more. */
    method DeliverFailure(document: Option<Document>, reloaded: set<string>)
      requires outstanding > 0
      modifies this
      ensures Now() == Step(old(Now()), ReplyFailed)
    {
      outstanding := outstanding - 1;
      QueryBalanceHttpError();
      QueryBalanceHttpFinished(document, reloaded);
    }

    /** The single-shot timer's slot; firing uses the timer up. */
    method DelayQueryBalance()
      requires singleShotTimers > 0
      modifies this
      ensures Now() == Step(old(Now()), TimerFired)
    {
      singleShotTimers := singleShotTimers - 1;
      isRequestingBalance := false;
      StartQueryBalance();
    }
  }
}
