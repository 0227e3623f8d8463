/**
 * The participant (BankServer.h): an account ledger plus a table of pending
 * holds, driven by VOTE-REQUEST, GLOBAL-COMMIT and GLOBAL-ABORT lines.
 *
 * The pure functions (Vote, Commit, Abort, Step, LoadLines) are the
 * specification; class BankServer holds the two maps as fields, updates them
 * in place as the source does, and is proved against those functions.
 */
module Participant {
  import opened Wrappers
  import opened Text

  /** The signed deltas one transaction holds against accounts of this participant. */
  type Hold = map<string, int>

  /** `accounts` (account to balance) and `transactions` (txID to hold). */
  datatype Ledger = Ledger(accounts: map<string, int>, transactions: map<string, Hold>)

  /** The result of a vote: the decision and the ledger afterwards. */
  datatype Voted = Voted(commit: bool, after: Ledger)

  /** The ledger after one request line, and the line sent back, if any. */
  datatype Handled = Handled(after: Ledger, reply: Option<string>)

  /** The fields `process` extracts; a missing string token reads as "". */
  datatype Request = Request(command: string, txID: string, account: string, amount: Option<int>)

  /** Every account named in a pending hold is a known account. */
  ghost predicate HoldsKnown(s: Ledger) {
    forall tx, a :: tx in s.transactions && a in s.transactions[tx] ==> a in s.accounts
  }

  /** The vote rule: the account is known and the delta does not overdraw it. */
  predicate Approves(accounts: map<string, int>, account: string, amount: int) {
    account in accounts && !(amount < 0 && accounts[account] + amount < 0)
  }

  /** The pending hold of `txID`, empty when there is none. */
  function HoldOf(s: Ledger, txID: string): Hold {
    if txID in s.transactions then s.transactions[txID] else map[]
  }

  /** A balance as `accounts[a]` reads it: an absent account counts as 0. */
  function Balance(accounts: map<string, int>, a: string): int {
    if a in accounts then accounts[a] else 0
  }

  /** Adds every delta of `hold` to its account. */
  function ApplyHold(accounts: map<string, int>, hold: Hold): (r: map<string, int>)
    ensures r.Keys == accounts.Keys + hold.Keys
  {
    map a | a in accounts.Keys + hold.Keys :: Balance(accounts, a) + Balance(hold, a)
  }

  /** VOTE-REQUEST: record the hold and vote commit, or vote abort and change nothing. */
  function Vote(s: Ledger, txID: string, account: string, amount: int): Voted {
    if Approves(s.accounts, account, amount) then
      Voted(true, s.(transactions := s.transactions[txID := HoldOf(s, txID)[account := amount]]))
    else
      Voted(false, s)
  }

  /** GLOBAL-COMMIT: apply and drop the hold of `txID`; a no-op when there is none. */
  function Commit(s: Ledger, txID: string): Ledger {
    if txID in s.transactions then
      Ledger(ApplyHold(s.accounts, s.transactions[txID]), s.transactions - {txID})
    else
      s
  }

  /** GLOBAL-ABORT: drop the hold of `txID`, if any. */
  function Abort(s: Ledger, txID: string): Ledger {
    s.(transactions := s.transactions - {txID})
  }

  function VoteReply(commit: bool, txID: string): string {
    (if commit then "VOTE-COMMIT " else "VOTE-ABORT ") + txID
  }

  function AckReply(txID: string): string {
    "ACK " + txID
  }

  function TokenAt(ts: seq<string>, i: nat): string {
    if i < |ts| then ts[i] else ""
  }

  /** `iss >> command >> transactionID >> account >> amount`. */
  function ParseRequest(line: string): Request {
    var ts := Tokens(line);
    Request(TokenAt(ts, 0), TokenAt(ts, 1), TokenAt(ts, 2),
            if |ts| > 3 then ParseAmount(ts[3]) else None)
  }

  /** The requests whose handling the source defines: a vote request needs its amount. */
  predicate Defined(req: Request) {
    req.command == "VOTE-REQUEST" ==> req.amount.Some?
  }

  /** One call of `process`: dispatch on the command word. */
  function Step(s: Ledger, req: Request): Handled
    requires Defined(req)
  {
    if req.command == "VOTE-REQUEST" then
      var v := Vote(s, req.txID, req.account, req.amount.value);
      Handled(v.after, Some(VoteReply(v.commit, req.txID)))
    else if req.command == "GLOBAL-COMMIT" then
      Handled(Commit(s, req.txID), Some(AckReply(req.txID)))
    else if req.command == "GLOBAL-ABORT" then
      Handled(Abort(s, req.txID), Some(AckReply(req.txID)))
    else
      Handled(s, None)
  }

  /** A snapshot line `<balance> <account>`, read as (account, balance). */
  function ParseLedgerLine(line: string): Option<(string, int)> {
    var ts := Tokens(line);
    if |ts| < 2 then None
    else match ParseAmount(ts[0]) {
      case None => None
      case Some(b) => Some((ts[1], b))
    }
  }

  /** The line sets the balance of account `a`. */
  predicate Names(line: string, a: string) {
    ParseLedgerLine(line).Some? && ParseLedgerLine(line).value.0 == a
  }

  /** `accounts` after the snapshot lines have been read in order. */
  function LoadLines(accounts: map<string, int>, lines: seq<string>): map<string, int>
    decreases |lines|
  {
    if lines == [] then accounts
    else
      var before := LoadLines(accounts, lines[..|lines| - 1]);
      match ParseLedgerLine(lines[|lines| - 1]) {
        case None => before
        case Some(entry) => before[entry.0 := entry.1]
      }
  }

  class BankServer {
    var accounts: map<string, int>
    var transactions: map<string, Hold>

    function Snapshot(): Ledger
      reads this
    {
      Ledger(accounts, transactions)
    }

    ghost predicate Valid()
      reads this
    {
      HoldsKnown(Snapshot())
    }

    /** A server with no accounts and no holds, before the snapshot is read. */
    constructor ()
      ensures Valid()
      ensures accounts == map[] && transactions == map[]
    {
      accounts := map[];
      transactions := map[];
    }

    /**
     * `loadAccounts`: `file` is the snapshot's lines, or None when it cannot
     * be opened; then the result is false (the source throws).
     */
    method LoadAccounts(file: Option<seq<string>>) returns (readable: bool)
      requires Valid()
      modifies this
      ensures Valid()
      ensures readable == file.Some?
      ensures transactions == old(transactions)
      ensures accounts == if file.Some? then LoadLines(old(accounts), file.value) else old(accounts)
    {
      if file.None? {
        return false;
      }
      var lines := file.value;
      var i := 0;
      while i < |lines|
        invariant 0 <= i <= |lines|
        invariant accounts == LoadLines(old(accounts), lines[..i])
        invariant old(accounts).Keys <= accounts.Keys
        invariant transactions == old(transactions)
      {
        assert lines[..i + 1][..i] == lines[..i];
        var entry := ParseLedgerLine(lines[i]);
        if entry.Some? {
          accounts := accounts[entry.value.0 := entry.value.1];
        }
        i := i + 1;
      }
      assert lines[..|lines|] == lines;
      return true;
    }

    /** VOTE-REQUEST (BankServer.h:82-97). */
    method VoteRequest(txID: string, account: string, amount: int) returns (commit: bool)
      requires Valid()
      modifies this
      ensures Valid()
      ensures Voted(commit, Snapshot()) == Vote(old(Snapshot()), txID, account, amount)
    {
      if account !in accounts || (amount < 0 && accounts[account] + amount < 0) {
        return false;
      }
      var hold := if txID in transactions then transactions[txID] else map[];
      transactions := transactions[txID := hold[account := amount]];
      return true;
    }

    /** GLOBAL-COMMIT (BankServer.h:98-123): the `+=` loop over the hold, then the erase. */
    method GlobalCommit(txID: string) returns (ack: string)
      requires Valid()
      modifies this
      ensures Valid()
      ensures Snapshot() == Commit(old(Snapshot()), txID)
      ensures ack == AckReply(txID)
    {
      if txID in transactions {
        var hold := transactions[txID];
        var pending := hold.Keys;
        while pending != {}
          invariant pending <= hold.Keys
          invariant accounts == ApplyHold(old(accounts), hold - pending)
          invariant transactions == old(transactions)
          decreases pending
        {
          var a :| a in pending;
          ApplyHoldStep(old(accounts), hold, pending, a);
          accounts := accounts[a := Balance(accounts, a) + hold[a]];
          pending := pending - {a};
        }
        assert hold - {} == hold;
        transactions := transactions - {txID};
      }
      ack := AckReply(txID);
    }

    /** GLOBAL-ABORT (BankServer.h:124-132). */
    method GlobalAbort(txID: string) returns (ack: string)
      requires Valid()
      modifies this
      ensures Valid()
      ensures Snapshot() == Abort(old(Snapshot()), txID)
      ensures ack == AckReply(txID)
    {
      transactions := transactions - {txID};
      ack := AckReply(txID);
    }

    /** `process`: read the request line and run the matching transition. */
    method Process(request: string) returns (reply: Option<string>)
      requires Valid()
      requires Defined(ParseRequest(request))
      modifies this
      ensures Valid()
      ensures Handled(Snapshot(), reply) == Step(old(Snapshot()), ParseRequest(request))
    {
      var req := ParseRequest(request);
      if req.command == "VOTE-REQUEST" {
        var commit := VoteRequest(req.txID, req.account, req.amount.value);
        reply := Some(VoteReply(commit, req.txID));
      } else if req.command == "GLOBAL-COMMIT" {
        var ack := GlobalCommit(req.txID);
        reply := Some(ack);
      } else if req.command == "GLOBAL-ABORT" {
        var ack := GlobalAbort(req.txID);
        reply := Some(ack);
      } else {
        reply := None;
      }
    }
  }

  /** One more account of the hold applied, as one iteration of the `+=` loop does. */
  lemma ApplyHoldStep(accounts: map<string, int>, hold: Hold, pending: set<string>, a: string)
    requires pending <= hold.Keys && a in pending
    ensures ApplyHold(accounts, hold - (pending - {a}))
         == ApplyHold(accounts, hold - pending)[a := Balance(ApplyHold(accounts, hold - pending), a) + hold[a]]
  {
    var done, next := hold - pending, hold - (pending - {a});
    assert next.Keys == done.Keys + {a};
    assert a !in done;
  }

  // ---------------------------------------------------------------------
  // VOTE-REQUEST

  /**
   * The vote is commit exactly when the account is known and the delta does
   * not take it below zero.  An abort vote leaves the ledger as it was; a
   * commit vote sets the hold of (txID, account) to the delta, overwriting a
   * previous one, keeps the other accounts held under txID and every other
   * transaction's hold, and never touches a balance.
   */
  lemma VoteOutcome(s: Ledger, txID: string, account: string, amount: int)
    ensures var v := Vote(s, txID, account, amount);
      && (v.commit <==> account in s.accounts && !(amount < 0 && s.accounts[account] + amount < 0))
      && v.after.accounts == s.accounts
      && (!v.commit ==> v.after == s)
      && (v.commit ==>
            && txID in v.after.transactions
            && v.after.transactions[txID].Keys == HoldOf(s, txID).Keys + {account}
            && v.after.transactions[txID][account] == amount
            && (forall b :: b in HoldOf(s, txID) && b != account ==>
                  v.after.transactions[txID][b] == HoldOf(s, txID)[b])
            && v.after.transactions - {txID} == s.transactions - {txID})
  {
  }

  /**
   * The overdraft test is strict: a known account always accepts a credit,
   * and accepts a debit that leaves exactly zero.
   */
  lemma VoteBoundary(s: Ledger, txID: string, account: string, amount: int)
    requires account in s.accounts
    requires amount >= 0 || s.accounts[account] + amount == 0
    ensures Vote(s, txID, account, amount).commit
  {
  }

  /** An unknown account is refused whatever the sign of the amount. */
  lemma VoteUnknownAccount(s: Ledger, txID: string, account: string, amount: int)
    requires account !in s.accounts
    ensures Vote(s, txID, account, amount) == Voted(false, s)
  {
  }

  // ---------------------------------------------------------------------
  // GLOBAL-COMMIT and GLOBAL-ABORT

  /**
   * Committing a pending transaction adds each of its deltas to its account,
   * leaves every other balance alone, creates no account, and removes that
   * transaction's hold and no other.
   */
  lemma CommitEffect(s: Ledger, txID: string)
    requires HoldsKnown(s)
    requires txID in s.transactions
    ensures var c := Commit(s, txID);
      && c.accounts.Keys == s.accounts.Keys
      && (forall a :: a in s.accounts ==>
            c.accounts[a] == s.accounts[a] + (if a in s.transactions[txID] then s.transactions[txID][a] else 0))
      && c.transactions == s.transactions - {txID}
  {
    assert s.transactions[txID].Keys <= s.accounts.Keys;
  }

  /**
   * A commit for a transaction with no hold changes nothing, so a second
   * commit of the same transaction changes nothing either.
   */
  lemma CommitIdempotent(s: Ledger, txID: string)
    ensures txID !in s.transactions ==> Commit(s, txID) == s
    ensures txID !in Commit(s, txID).transactions
    ensures Commit(Commit(s, txID), txID) == Commit(s, txID)
  {
  }

  /** An abort drops the hold and no balance; aborting twice is aborting once. */
  lemma AbortIdempotent(s: Ledger, txID: string)
    ensures Abort(s, txID).accounts == s.accounts
    ensures txID !in Abort(s, txID).transactions
    ensures Abort(s, txID).transactions - {txID} == s.transactions - {txID}
    ensures Abort(Abort(s, txID), txID) == Abort(s, txID)
  {
  }

  /**
   * Every request line is answered as the source answers it: a vote request
   * with the vote naming the transaction, a finalisation with `ACK txID`
   * whether or not a hold existed, anything else with silence and no change.
   */
  lemma StepReplies(s: Ledger, req: Request)
    requires Defined(req)
    ensures req.command == "VOTE-REQUEST" ==>
      Step(s, req).reply == Some(VoteReply(Vote(s, req.txID, req.account, req.amount.value).commit, req.txID))
    ensures req.command in {"GLOBAL-COMMIT", "GLOBAL-ABORT"} ==> Step(s, req).reply == Some(AckReply(req.txID))
    ensures req.command !in {"VOTE-REQUEST", "GLOBAL-COMMIT", "GLOBAL-ABORT"} ==> Step(s, req) == Handled(s, None)
  {
  }

  /**
   * The invariant that every held account exists survives every request, so
   * a commit can never create an account.
   */
  lemma StepKeepsHoldsKnown(s: Ledger, req: Request)
    requires Defined(req)
    requires HoldsKnown(s)
    ensures HoldsKnown(Step(s, req).after)
    ensures Step(s, req).after.accounts.Keys == s.accounts.Keys
  {
    if req.command == "GLOBAL-COMMIT" && req.txID in s.transactions {
      CommitEffect(s, req.txID);
    }
  }

  // ---------------------------------------------------------------------
  // Balances never go negative -- with one outstanding debit per account

  /** No balance is negative. */
  ghost predicate NonNegative(s: Ledger) {
    forall a :: a in s.accounts ==> s.accounts[a] >= 0
  }

  /** No account has pending debits under two different transactions. */
  ghost predicate OneDebitEach(s: Ledger) {
    forall t1, t2, a ::
      (t1 in s.transactions && t2 in s.transactions &&
       a in s.transactions[t1] && a in s.transactions[t2] &&
       s.transactions[t1][a] < 0 && s.transactions[t2][a] < 0) ==> t1 == t2
  }

  /** Every pending debit is covered by the committed balance it was voted against. */
  ghost predicate Covered(s: Ledger) {
    forall tx, a :: tx in s.transactions && a in s.transactions[tx] && s.transactions[tx][a] < 0 ==>
      a in s.accounts && s.accounts[a] + s.transactions[tx][a] >= 0
  }

  ghost predicate Solvent(s: Ledger) {
    HoldsKnown(s) && NonNegative(s) && OneDebitEach(s) && Covered(s)
  }

  /** No transaction other than `txID` holds a debit on `account`. */
  ghost predicate NoOtherDebit(s: Ledger, txID: string, account: string) {
    forall t :: t in s.transactions && t != txID && account in s.transactions[t] ==>
      s.transactions[t][account] >= 0
  }

  /**
   * A vote keeps the ledger solvent when it is the only debit outstanding on
   * its account: the overdraft test reads the committed balance only, so that
   * premise cannot be dropped (see ConcurrentDebitsOverdraw).
   */
  lemma VoteKeepsSolvent(s: Ledger, txID: string, account: string, amount: int)
    requires Solvent(s)
    requires amount < 0 ==> NoOtherDebit(s, txID, account)
    ensures Solvent(Vote(s, txID, account, amount).after)
  {
    var v := Vote(s, txID, account, amount);
    if v.commit {
      var h := HoldOf(s, txID)[account := amount];
      var t := s.transactions[txID := h];
      assert v.after == Ledger(s.accounts, t);
      forall tx, a | tx in t && a in t[tx] ensures a in s.accounts {
        if tx != txID {
          assert t[tx] == s.transactions[tx];
        }
      }
      forall t1, t2, a | t1 in t && t2 in t && a in t[t1] && a in t[t2] && t[t1][a] < 0 && t[t2][a] < 0
        ensures t1 == t2
      {
        if t1 != t2 {
          HeldDebitWasThere(s, txID, account, amount, t1, a);
          HeldDebitWasThere(s, txID, account, amount, t2, a);
        }
      }
      forall tx, a | tx in t && a in t[tx] && t[tx][a] < 0
        ensures a in s.accounts && s.accounts[a] + t[tx][a] >= 0
      {
        HeldDebitWasThere(s, txID, account, amount, tx, a);
      }
    }
  }

  /** A debit held after a commit vote is the new one or was held before. */
  lemma HeldDebitWasThere(s: Ledger, txID: string, account: string, amount: int, tx: string, a: string)
    requires Approves(s.accounts, account, amount)
    requires tx in s.transactions[txID := HoldOf(s, txID)[account := amount]]
    requires a in s.transactions[txID := HoldOf(s, txID)[account := amount]][tx]
    ensures var d := s.transactions[txID := HoldOf(s, txID)[account := amount]][tx][a];
      (tx == txID && a == account && d == amount) ||
      (tx in s.transactions && a in s.transactions[tx] && d == s.transactions[tx][a])
  {
  }

  /** Committing keeps the ledger solvent: each applied debit was covered. */
  lemma CommitKeepsSolvent(s: Ledger, txID: string)
    requires Solvent(s)
    ensures Solvent(Commit(s, txID))
  {
    if txID in s.transactions {
      var c := Commit(s, txID);
      var hold := s.transactions[txID];
      CommitEffect(s, txID);
      forall a | a in c.accounts ensures c.accounts[a] >= 0 {
        if a in hold && hold[a] < 0 {
          assert s.accounts[a] + hold[a] >= 0;
        }
      }
      forall tx, a | tx in c.transactions && a in c.transactions[tx] && c.transactions[tx][a] < 0
        ensures a in c.accounts && c.accounts[a] + c.transactions[tx][a] >= 0
      {
        assert tx in s.transactions && tx != txID;
        if a in hold && hold[a] < 0 {
          assert false;
        }
      }
    }
  }

  lemma AbortKeepsSolvent(s: Ledger, txID: string)
    requires Solvent(s)
    ensures Solvent(Abort(s, txID))
  {
  }

  /**
   * Two votes under different transaction ids are both approved against the
   * same committed funds; committing both drives the balance below zero.
   */
  lemma ConcurrentDebitsOverdraw()
    ensures var s0 := Ledger(map["A" := 10], map[]);
      var v1 := Vote(s0, "t1", "A", -10);
      var v2 := Vote(v1.after, "t2", "A", -10);
      var s := Commit(Commit(v2.after, "t1"), "t2");
      v1.commit && v2.commit && s.accounts["A"] == -10
  {
    var s0 := Ledger(map["A" := 10], map[]);
    var v1 := Vote(s0, "t1", "A", -10);
    assert v1.after.transactions == map["t1" := map["A" := -10]];
    var v2 := Vote(v1.after, "t2", "A", -10);
    assert v2.after.transactions == map["t1" := map["A" := -10], "t2" := map["A" := -10]];
    var c1 := Commit(v2.after, "t1");
    assert c1.accounts == map["A" := 0];
    assert c1.transactions == map["t2" := map["A" := -10]];
  }

  // ---------------------------------------------------------------------
  // The ledger snapshot

  /** Reading lines never forgets an account. */
  lemma {:induction false} LoadKeepsAccounts(accounts: map<string, int>, lines: seq<string>)
    ensures accounts.Keys <= LoadLines(accounts, lines).Keys
    decreases |lines|
  {
    if lines != [] {
      LoadKeepsAccounts(accounts, lines[..|lines| - 1]);
    }
  }

  /** A line that is not `<balance> <account>` is skipped. */
  lemma MalformedLineSkipped(accounts: map<string, int>, lines: seq<string>, line: string)
    requires ParseLedgerLine(line).None?
    ensures LoadLines(accounts, lines + [line]) == LoadLines(accounts, lines)
  {
    assert (lines + [line])[..|lines|] == lines;
  }

  /** The last line naming an account sets its balance. */
  lemma {:induction false} LastLineWins(accounts: map<string, int>, lines: seq<string>, i: nat, a: string, b: int)
    requires i < |lines|
    requires ParseLedgerLine(lines[i]) == Some((a, b))
    requires forall j :: i < j < |lines| ==> !Names(lines[j], a)
    ensures a in LoadLines(accounts, lines) && LoadLines(accounts, lines)[a] == b
    decreases |lines|
  {
    var init := lines[..|lines| - 1];
    if i < |lines| - 1 {
      assert init[i] == lines[i];
      forall j | i < j < |init| ensures !Names(init[j], a) {
        assert init[j] == lines[j];
      }
      LastLineWins(accounts, init, i, a, b);
      assert !Names(lines[|lines| - 1], a);
    }
  }

  /** An account no line names keeps its previous state. */
  lemma {:induction false} UnnamedAccountKept(accounts: map<string, int>, lines: seq<string>, a: string)
    requires forall j :: 0 <= j < |lines| ==> !Names(lines[j], a)
    ensures a in LoadLines(accounts, lines) <==> a in accounts
    ensures a in accounts ==> LoadLines(accounts, lines)[a] == accounts[a]
    decreases |lines|
  {
    if lines != [] {
      var init := lines[..|lines| - 1];
      forall j | 0 <= j < |init| ensures !Names(init[j], a) {
        assert init[j] == lines[j];
      }
      UnnamedAccountKept(accounts, init, a);
      assert !Names(lines[|lines| - 1], a);
    }
  }
}
