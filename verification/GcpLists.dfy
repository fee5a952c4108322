/** The loops of internal/address/gcp.go that gather what the service answers: paging, the index of
    users, and waiting for an operation. */
module GcpLists {
  import opened Wrappers

  /** A listed address; `users` are the self links of the resources that use it. */
  datatype Item = Item(address: string, users: seq<string>)

  // ----- listAddresses -----

  datatype Page = Page(items: seq<Item>, nextToken: string)

  /** The service's pages by token; "" asks for the first page, a missing token is a failing call. */
  type Pages = map<string, Page>

  /** The page of the i-th token leads to the next one. */
  ghost predicate Leads(pages: Pages, tokens: seq<string>, i: nat)
    requires i + 1 < |tokens|
  {
    tokens[i] in pages && pages[tokens[i]].nextToken == tokens[i + 1] != ""
  }

  /** The finite chain of tokens that following the pages goes through. */
  ghost predicate Chain(pages: Pages, tokens: seq<string>) {
    && |tokens| > 0 && tokens[0] == ""
    && (forall i :: 0 <= i < |tokens| - 1 ==> Leads(pages, tokens, i))
    && (tokens[|tokens| - 1] in pages ==> pages[tokens[|tokens| - 1]].nextToken == "")
  }

  ghost function Concatenated(pages: Pages, tokens: seq<string>): seq<Item>
    requires forall i :: 0 <= i < |tokens| ==> tokens[i] in pages
  {
    if |tokens| == 0 then []
    else Concatenated(pages, tokens[..|tokens| - 1]) + pages[tokens[|tokens| - 1]].items
  }

  /** For every finite chain of pages the loop terminates with their concatenation, in order, or with
      the error of the call that failed. */
  method ListAddresses(pages: Pages, ghost tokens: seq<string>) returns (r: Option<seq<Item>>)
    requires Chain(pages, tokens)
    ensures r.Some? <==> tokens[|tokens| - 1] in pages
    ensures r.Some? ==> (forall i :: 0 <= i < |tokens| ==> tokens[i] in pages) && r.value == Concatenated(pages, tokens)
  {
    var addresses: seq<Item> := [];
    var token := "";
    ghost var n := 0;
    while true
      invariant n < |tokens| && token == tokens[n]
      invariant forall i :: 0 <= i < n ==> tokens[..n][i] in pages
      invariant addresses == Concatenated(pages, tokens[..n])
      decreases |tokens| - n
    {
      assert n + 1 < |tokens| ==> Leads(pages, tokens, n);
      if token !in pages {
        return None;
      }
      assert tokens[..n + 1][..n] == tokens[..n];
      addresses := addresses + pages[token].items;
      if pages[token].nextToken == "" {
        assert tokens[..n + 1] == tokens;
        return Some(addresses);
      }
      token := pages[token].nextToken;
      n := n + 1;
    }
  }

  // ----- createUserMap -----

  predicate Names(item: Item, user: string) {
    user in item.users
  }

  /** The address of the last listed item that names the user. */
  function LastNaming(inUse: seq<Item>, user: string): Option<string> {
    if |inUse| == 0 then None
    else if Names(inUse[|inUse| - 1], user) then Some(inUse[|inUse| - 1].address)
    else LastNaming(inUse[..|inUse| - 1], user)
  }

  function Lookup(users: map<string, string>, user: string): Option<string> {
    if user in users then Some(users[user]) else None
  }

  /** The map answers every lookup with the last listed address that names the user. */
  method CreateUserMap(inUse: seq<Item>) returns (users: map<string, string>)
    ensures forall user :: Lookup(users, user) == LastNaming(inUse, user)
  {
    users := map[];
    for i := 0 to |inUse|
      invariant forall user :: Lookup(users, user) == LastNaming(inUse[..i], user)
    {
      var address := inUse[i];
      assert inUse[..i + 1][..i] == inUse[..i];
      for j := 0 to |address.users|
        invariant forall user :: Lookup(users, user) ==
                    if user in address.users[..j] then Some(address.address) else LastNaming(inUse[..i], user)
      {
        assert address.users[..j + 1] == address.users[..j] + [address.users[j]];
        users := users[address.users[j] := address.address];
      }
      assert address.users[..|address.users|] == address.users;
    }
    assert inUse[..|inUse|] == inUse;
  }

  /** A lookup hits exactly when some listed address names the user, and it returns the last such. */
  lemma {:induction false} LookupExactly(inUse: seq<Item>, user: string)
    ensures LastNaming(inUse, user).Some? <==> exists i :: 0 <= i < |inUse| && Names(inUse[i], user)
    ensures LastNaming(inUse, user).Some? ==>
              exists i :: 0 <= i < |inUse| && Names(inUse[i], user) && LastNaming(inUse, user).value == inUse[i].address
                       && forall j :: i < j < |inUse| ==> !Names(inUse[j], user)
  {
    if |inUse| > 0 {
      var n := |inUse| - 1;
      LookupExactly(inUse[..n], user);
      if !Names(inUse[n], user) && LastNaming(inUse, user).Some? {
        var i :| 0 <= i < n && Names(inUse[..n][i], user) && LastNaming(inUse[..n], user).value == inUse[..n][i].address
                 && forall j :: i < j < n ==> !Names(inUse[..n][j], user);
        assert Names(inUse[i], user) && LastNaming(inUse, user).value == inUse[i].address;
        forall j | i < j < |inUse| ensures !Names(inUse[j], user) {
          if j < n { assert inUse[..n][j] == inUse[j]; }
        }
      }
    }
  }

  // ----- waitForOperation -----

  datatype Operation = Operation(done: bool, failed: bool)

  datatype Poll = Answer(op: Operation) | Cancelled | CallError

  datatype WaitResult = Finished | OperationError | TimedOut | PollError

  /** Polling ends at the first answer that is DONE or carries an error, or with a failing poll; the
      deadline bounds it, so running out of polls is a timeout. */
  function Waited(done: bool, polls: seq<Poll>): WaitResult
    decreases |polls|
  {
    if done then Finished
    else if |polls| == 0 then TimedOut
    else
      match polls[0]
      case Cancelled => TimedOut
      case CallError => PollError
      case Answer(op) => if op.failed then OperationError else Waited(op.done, polls[1..])
  }

  method WaitForOperation(op: Option<Operation>, polls: seq<Poll>) returns (r: WaitResult)
    ensures r == if op.None? then Finished else Waited(op.value.done, polls)
  {
    if op.None? {
      return Finished;
    }
    var done, i := op.value.done, 0;
    while !done
      invariant i <= |polls| && Waited(op.value.done, polls) == Waited(done, polls[i..])
      decreases |polls| - i
    {
      if i == |polls| {
        return TimedOut;
      }
      match polls[i] {
        case Cancelled => return TimedOut;
        case CallError => return PollError;
        case Answer(answer) =>
          if answer.failed {
            return OperationError;
          }
          done := answer.done;
      }
      assert polls[i..][1..] == polls[i + 1..];
      i := i + 1;
    }
    return Finished;
  }

  /** An answer that polling goes on after. */
  predicate Pending(poll: Poll) {
    poll.Answer? && !poll.op.done && !poll.op.failed
  }

  ghost predicate FirstDecisive(polls: seq<Poll>, i: nat) {
    i < |polls| && !Pending(polls[i]) && forall j :: 0 <= j < i ==> Pending(polls[j])
  }

  /** An operation that was not done is decided by the first poll that does not leave it pending. */
  lemma {:induction false} FirstPollDecides(polls: seq<Poll>, i: nat)
    requires FirstDecisive(polls, i)
    ensures Waited(true, polls) == Finished
    ensures Waited(false, polls) ==
              match polls[i]
              case Answer(op) => if op.failed then OperationError else Finished
              case Cancelled => TimedOut
              case CallError => PollError
    decreases i
  {
    if i > 0 {
      assert Pending(polls[0]) && FirstDecisive(polls[1..], i - 1);
      FirstPollDecides(polls[1..], i - 1);
    }
  }

  lemma {:induction false} NoneDecides(polls: seq<Poll>)
    requires forall j :: 0 <= j < |polls| ==> Pending(polls[j])
    ensures Waited(false, polls) == TimedOut
  {
    if |polls| > 0 {
      assert Pending(polls[0]);
      NoneDecides(polls[1..]);
    }
  }

  lemma {:induction false} Decided(polls: seq<Poll>) returns (i: nat)
    ensures FirstDecisive(polls, i) || forall j :: 0 <= j < |polls| ==> Pending(polls[j])
  {
    i := 0;
    while i < |polls| && Pending(polls[i])
      invariant i <= |polls| && forall j :: 0 <= j < i ==> Pending(polls[j])
    {
      i := i + 1;
    }
  }

  /** Waiting finds the operation failed exactly when it was not done and the first decisive poll says so:
      a failing poll, a cancellation and the deadline do not count as a failure. */
  lemma {:induction false} FoundFailedExactly(done: bool, polls: seq<Poll>)
    ensures Waited(done, polls) == OperationError <==>
              !done && exists i: nat :: FirstDecisive(polls, i) && polls[i].Answer? && polls[i].op.failed
  {
    var i := Decided(polls);
    if FirstDecisive(polls, i) {
      FirstPollDecides(polls, i);
      forall j: nat | FirstDecisive(polls, j) ensures j == i {
      }
    } else {
      NoneDecides(polls);
    }
    hide Pending;
    assert Waited(true, polls) == Finished;
  }

  /** The service's polls report one operation that ends in DONE, an error being set only then. */
  predicate Truthful(op: Operation, polls: seq<Poll>)
    decreases |polls|
  {
    && (op.failed ==> op.done)
    && (!op.done ==> |polls| > 0 && polls[0].Answer? && Truthful(polls[0].op, polls[1..]))
  }

  function Succeeds(op: Operation, polls: seq<Poll>): bool
    requires Truthful(op, polls)
    decreases |polls|
  {
    if op.done then !op.failed else Succeeds(polls[0].op, polls[1..])
  }

  /** Waiting tells whether the operation succeeded exactly when the operation had not already failed
      at the moment the call returned it: such an error is never looked at. */
  lemma {:induction false} WaitTellsExactly(op: Operation, polls: seq<Poll>)
    requires Truthful(op, polls)
    ensures (Waited(op.done, polls) == (if Succeeds(op, polls) then Finished else OperationError)) <==> !op.failed
    decreases |polls|
  {
    if !op.done {
      var next := polls[0].op;
      WaitTellsExactly(next, polls[1..]);
    }
  }
}
