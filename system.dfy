/**
 * The coordinator and the participants together: every line the coordinator
 * sends is read back by `process` as the request it was built from, and one
 * transfer, run through the four lines of its exchange, moves the amount
 * between the two accounts or changes neither.
 *
 * A participant here is a `Ledger` value and handling a line is `Step`; the
 * participants' replies to the two vote requests are the ones `Step` gives.
 */
module TwoPhaseCommit {
  import opened Wrappers
  import opened Text
  import opened Wire
  import opened Participant
  import opened Coordinator

  /** A coordinator line read back by `process`: the four tokens it was made of. */
  lemma RequestRoundTrip(m: Message)
    requires IsWord(m.txID) && IsWord(m.account)
    ensures ParseRequest(Render(m)) == Request(Command(m), m.txID, m.account, Some(m.amount))
    ensures Defined(ParseRequest(Render(m)))
  {
    RenderTokens(m);
    AmountRoundTrip(m.amount);
  }

  /** The participant's vote reply is read by `requestVote` as a yes exactly when it voted commit. */
  lemma VoteReplyRead(commit: bool, txID: string)
    ensures VoteAccepted(VoteReply(commit, txID), txID) <==> commit
  {
    if !commit {
      VoteAcceptedOnlyExact(VoteReply(commit, txID), txID, txID);
    }
  }

  /** The transaction id and both account names are single words. */
  predicate Wordy(t: Transfer) {
    IsWord(t.txID) && IsWord(t.source.account) && IsWord(t.dest.account)
  }

  /**
   * What a participant in state `s` does with message `m`: a vote request is
   * voted on and answered with the vote, a decision commits or aborts the
   * hold and is acknowledged.
   */
  function Receive(s: Ledger, m: Message): Handled {
    match m
    case VoteRequest(txID, account, amount) =>
      var v := Vote(s, txID, account, amount);
      Handled(v.after, Some(VoteReply(v.commit, txID)))
    case Finalize(txID, commit, _, _) =>
      Handled(if commit then Commit(s, txID) else Abort(s, txID), Some(AckReply(txID)))
  }

  /** `process` applied to the text of `m` does exactly what `Receive` says. */
  lemma ProcessRendered(s: Ledger, m: Message)
    requires IsWord(m.txID) && IsWord(m.account)
    ensures Defined(ParseRequest(Render(m)))
    ensures Step(s, ParseRequest(Render(m))) == Receive(s, m)
  {
    RequestRoundTrip(m);
  }

  /**
   * Every line of a transfer's exchange, with word-shaped id and account
   * names, is handled by `process` exactly as `Receive` says.
   */
  lemma ExchangeReadBack(s: Ledger, t: Transfer, src: Client, dst: Client,
                         sourceReply: string, destReply: string, k: nat)
    requires Wordy(t) && k < 4
    ensures var m := Exchange(t, src, dst, sourceReply, destReply)[k].message;
      && Defined(ParseRequest(Render(m)))
      && Step(s, ParseRequest(Render(m))) == Receive(s, m)
  {
    ExchangeProtocol(t, src, dst, sourceReply, destReply);
    ProcessRendered(s, Exchange(t, src, dst, sourceReply, destReply)[k].message);
  }

  /** What `get_response` yields for a reply: its text, or nothing. */
  function ReplyText(reply: Option<string>): string {
    if reply.Some? then reply.value else ""
  }

  /** The two ledgers after a transfer, and the coordinator's decision. */
  datatype Outcome = Outcome(source: Ledger, dest: Ledger, committed: bool)

  /**
   * One transfer between two different participants: each hears its vote
   * request and replies, then each hears the decision the coordinator draws
   * from those replies (the four messages of `Exchange`, in order, see
   * ExchangeProtocol).
   */
  function RunTransfer(src: Ledger, dst: Ledger, t: Transfer): Outcome
  {
    var sourceVote := Receive(src, SourceVote(t));
    var destVote := Receive(dst, DestVote(t));
    var commit := Decide(t.txID, ReplyText(sourceVote.reply), ReplyText(destVote.reply));
    var sourceFinal := Receive(sourceVote.after, SourceDecision(t, commit));
    var destFinal := Receive(destVote.after, DestDecision(t, commit));
    Outcome(sourceFinal.after, destFinal.after, commit)
  }

  /** A single-entry hold, committed, moves one balance. */
  lemma ApplySingleHold(accounts: map<string, int>, a: string, d: int)
    requires a in accounts
    ensures ApplyHold(accounts, map[a := d]) == accounts[a := accounts[a] + d]
  {
    var r := ApplyHold(accounts, map[a := d]);
    assert r.Keys == accounts.Keys;
    forall b | b in r ensures r[b] == accounts[a := accounts[a] + d][b] {
      if b != a {
        assert Balance(map[a := d], b) == 0;
      }
    }
  }

  /** Recording and then dropping a fresh transaction leaves the table as it was. */
  lemma DropFresh(table: map<string, Hold>, txID: string, h: Hold)
    requires txID !in table
    ensures table[txID := h] - {txID} == table
  {
  }

  /** One side of a transfer on its own participant: vote, then the decision. */
  lemma SideOutcome(s: Ledger, txID: string, account: string, amount: int, commit: bool)
    requires txID !in s.transactions
    requires commit ==> Approves(s.accounts, account, amount)
    ensures var v := Receive(s, VoteRequest(txID, account, amount));
      var f := Receive(v.after, Finalize(txID, commit, account, amount));
      && (VoteAccepted(ReplyText(v.reply), txID) <==> Approves(s.accounts, account, amount))
      && f.after.transactions == s.transactions
      && f.after.accounts == (if commit then s.accounts[account := s.accounts[account] + amount] else s.accounts)
  {
    var v := Receive(s, VoteRequest(txID, account, amount));
    VoteReplyRead(Approves(s.accounts, account, amount), txID);
    if Approves(s.accounts, account, amount) {
      assert v.after.transactions == s.transactions[txID := map[account := amount]];
      DropFresh(s.transactions, txID, map[account := amount]);
      if commit {
        ApplySingleHold(s.accounts, account, amount);
      }
    }
  }

  /**
   * Atomicity across two participants: with a fresh transaction id, the
   * transfer commits exactly when the source may be debited and the
   * destination account exists; a commit debits the source and credits the
   * destination by the amount, an abort changes no balance, and either way
   * no hold is left behind.
   */
  lemma TransferAtomic(src: Ledger, dst: Ledger, t: Transfer)
    requires t.txID !in src.transactions && t.txID !in dst.transactions
    ensures var o := RunTransfer(src, dst, t);
      && (o.committed <==> (Approves(src.accounts, t.source.account, -t.amount)
                           && Approves(dst.accounts, t.dest.account, t.amount)))
      && (o.committed ==>
            && o.source.accounts == src.accounts[t.source.account := src.accounts[t.source.account] - t.amount]
            && o.dest.accounts == dst.accounts[t.dest.account := dst.accounts[t.dest.account] + t.amount])
      && (!o.committed ==> o.source.accounts == src.accounts && o.dest.accounts == dst.accounts)
      && o.source.transactions == src.transactions && o.dest.transactions == dst.transactions
  {
    var sourceVote := Receive(src, VoteRequest(t.txID, t.source.account, -t.amount));
    var destVote := Receive(dst, VoteRequest(t.txID, t.dest.account, t.amount));
    var commit := Decide(t.txID, ReplyText(sourceVote.reply), ReplyText(destVote.reply));
    SideOutcome(src, t.txID, t.source.account, -t.amount, false);
    SideOutcome(dst, t.txID, t.dest.account, t.amount, false);
    SideOutcome(src, t.txID, t.source.account, -t.amount, commit);
    SideOutcome(dst, t.txID, t.dest.account, t.amount, commit);
  }

  /** `process` handling the text of `m`, as it arrives over the wire. */
  function Deliver(s: Ledger, m: Message): Handled
    requires IsWord(m.txID) && IsWord(m.account)
  {
    RequestRoundTrip(m);
    Step(s, ParseRequest(Render(m)))
  }

  /** `RunTransfer` with every line rendered by the client and parsed by `process`. */
  function WireTransfer(src: Ledger, dst: Ledger, t: Transfer): Outcome
    requires Wordy(t)
  {
    var sourceVote := Deliver(src, SourceVote(t));
    var destVote := Deliver(dst, DestVote(t));
    var commit := Decide(t.txID, ReplyText(sourceVote.reply), ReplyText(destVote.reply));
    var sourceFinal := Deliver(sourceVote.after, SourceDecision(t, commit));
    var destFinal := Deliver(destVote.after, DestDecision(t, commit));
    Outcome(sourceFinal.after, destFinal.after, commit)
  }

  /**
   * When the id and both accounts are single words, running the transfer on
   * the text of its lines gives the same outcome, so TransferAtomic holds of
   * the lines the coordinator actually sends.
   */
  lemma TransferOnWire(src: Ledger, dst: Ledger, t: Transfer)
    requires Wordy(t)
    ensures WireTransfer(src, dst, t) == RunTransfer(src, dst, t)
  {
    var sourceVote := Receive(src, SourceVote(t));
    var destVote := Receive(dst, DestVote(t));
    var commit := Decide(t.txID, ReplyText(sourceVote.reply), ReplyText(destVote.reply));
    ProcessRendered(src, SourceVote(t));
    ProcessRendered(dst, DestVote(t));
    ProcessRendered(sourceVote.after, SourceDecision(t, commit));
    ProcessRendered(destVote.after, DestDecision(t, commit));
  }

  /** The ledger after a transfer whose two accounts live on one participant, and the decision. */
  datatype LocalOutcome = LocalOutcome(after: Ledger, committed: bool)

  /**
   * One transfer whose source and destination are served by the same
   * participant (one port, so one pooled client): the four lines of the
   * exchange reach one ledger in order.
   */
  function RunLocalTransfer(s: Ledger, t: Transfer): LocalOutcome
  {
    var sourceVote := Receive(s, SourceVote(t));
    var destVote := Receive(sourceVote.after, DestVote(t));
    var commit := Decide(t.txID, ReplyText(sourceVote.reply), ReplyText(destVote.reply));
    var sourceFinal := Receive(destVote.after, SourceDecision(t, commit));
    var destFinal := Receive(sourceFinal.after, DestDecision(t, commit));
    LocalOutcome(destFinal.after, commit)
  }

  /** `RunLocalTransfer` with every line rendered by the client and parsed by `process`. */
  function WireLocalTransfer(s: Ledger, t: Transfer): LocalOutcome
    requires Wordy(t)
  {
    var sourceVote := Deliver(s, SourceVote(t));
    var destVote := Deliver(sourceVote.after, DestVote(t));
    var commit := Decide(t.txID, ReplyText(sourceVote.reply), ReplyText(destVote.reply));
    var sourceFinal := Deliver(destVote.after, SourceDecision(t, commit));
    var destFinal := Deliver(sourceFinal.after, DestDecision(t, commit));
    LocalOutcome(destFinal.after, commit)
  }

  /** On one participant, too, the text of the lines gives the outcome `RunLocalTransfer` describes. */
  lemma LocalTransferOnWire(s: Ledger, t: Transfer)
    requires Wordy(t)
    ensures WireLocalTransfer(s, t) == RunLocalTransfer(s, t)
  {
    var sourceVote := Receive(s, SourceVote(t));
    var destVote := Receive(sourceVote.after, DestVote(t));
    var commit := Decide(t.txID, ReplyText(sourceVote.reply), ReplyText(destVote.reply));
    var sourceFinal := Receive(destVote.after, SourceDecision(t, commit));
    ProcessRendered(s, SourceVote(t));
    ProcessRendered(sourceVote.after, DestVote(t));
    ProcessRendered(destVote.after, SourceDecision(t, commit));
    ProcessRendered(sourceFinal.after, DestDecision(t, commit));
  }

  /** A two-entry hold, committed, moves both balances. */
  lemma ApplyPairHold(accounts: map<string, int>, a: string, b: string, da: int, db: int)
    requires a in accounts && b in accounts && a != b
    ensures ApplyHold(accounts, map[a := da][b := db])
         == accounts[a := accounts[a] + da][b := accounts[b] + db]
  {
    var h := map[a := da][b := db];
    var r := ApplyHold(accounts, h);
    var want := accounts[a := accounts[a] + da][b := accounts[b] + db];
    assert r.Keys == want.Keys;
    forall x | x in r ensures r[x] == want[x] {
      if x != a && x != b {
        assert Balance(h, x) == 0;
      }
    }
  }

  /** The hold one participant keeps after voting on both sides, commit votes only. */
  function LocalHold(okA: bool, a: string, da: int, okB: bool, b: string, db: int): Hold {
    var first: Hold := if okA then map[a := da] else map[];
    if okB then first[b := db] else first
  }

  /**
   * Both vote requests on one ledger: each vote sees the balances as they
   * were (holds are not counted), and the commit votes pile up in one hold.
   */
  lemma LocalVotes(s: Ledger, txID: string, a: string, da: int, b: string, db: int)
    requires txID !in s.transactions
    ensures var v1 := Vote(s, txID, a, da);
      var v2 := Vote(v1.after, txID, b, db);
      && v1.commit == Approves(s.accounts, a, da)
      && v2.commit == Approves(s.accounts, b, db)
      && v2.after.accounts == s.accounts
      && v2.after.transactions == (if v1.commit || v2.commit
                                   then s.transactions[txID := LocalHold(v1.commit, a, da, v2.commit, b, db)]
                                   else s.transactions)
  {
  }

  /**
   * Both decision lines on one ledger holding the fresh hold `hold`: a commit
   * applies it once (the second commit finds nothing), an abort drops it.
   */
  lemma LocalDecisions(s: Ledger, txID: string, hold: Hold, commit: bool)
    requires txID !in s.transactions
    ensures var held := Ledger(s.accounts, s.transactions[txID := hold]);
      var f1 := if commit then Commit(held, txID) else Abort(held, txID);
      var f2 := if commit then Commit(f1, txID) else Abort(f1, txID);
      f2 == (if commit then Ledger(ApplyHold(s.accounts, hold), s.transactions) else s)
  {
    DropFresh(s.transactions, txID, hold);
  }

  /**
   * `o` is what a transfer on one participant gives, in terms of the votes:
   * commit exactly when both sides approve, and then the hold both votes
   * left applied to the balances; otherwise the ledger as it was.
   */
  ghost predicate LocalResult(s: Ledger, t: Transfer, o: LocalOutcome) {
    var okA := Approves(s.accounts, t.source.account, -t.amount);
    var okB := Approves(s.accounts, t.dest.account, t.amount);
    var hold := LocalHold(okA, t.source.account, -t.amount, okB, t.dest.account, t.amount);
    && o.committed == (okA && okB)
    && o.after == (if okA && okB then Ledger(ApplyHold(s.accounts, hold), s.transactions) else s)
  }

  /** A transfer on one participant, in terms of the votes and the hold they leave. */
  lemma LocalSteps(s: Ledger, t: Transfer)
    requires t.txID !in s.transactions
    ensures LocalResult(s, t, RunLocalTransfer(s, t))
  {
    var a, b, tx := t.source.account, t.dest.account, t.txID;
    var okA := Approves(s.accounts, a, -t.amount);
    var okB := Approves(s.accounts, b, t.amount);
    var hold := LocalHold(okA, a, -t.amount, okB, b, t.amount);
    LocalVotes(s, tx, a, -t.amount, b, t.amount);
    var v1 := Receive(s, VoteRequest(tx, a, -t.amount));
    var v2 := Receive(v1.after, VoteRequest(tx, b, t.amount));
    assert ReplyText(v1.reply) == VoteReply(okA, tx) && ReplyText(v2.reply) == VoteReply(okB, tx);
    VoteReplyRead(okA, tx);
    VoteReplyRead(okB, tx);
    var commit := okA && okB;
    assert Decide(tx, ReplyText(v1.reply), ReplyText(v2.reply)) == commit;
    var f1 := Receive(v2.after, Finalize(tx, commit, a, -t.amount));
    var f2 := Receive(f1.after, Finalize(tx, commit, b, t.amount));
    assert RunLocalTransfer(s, t) == LocalOutcome(f2.after, commit);
    if okA || okB {
      assert v2.after == Ledger(s.accounts, s.transactions[tx := hold]);
      LocalDecisions(s, tx, hold, commit);
    } else {
      assert v2.after == s;
      assert !commit;
    }
  }

  /**
   * Atomicity on one participant, for two different accounts: the same
   * outcome as across two participants, applied to the one ledger.  The
   * second decision line finds no hold left and changes nothing.
   */
  lemma LocalTransferAtomic(s: Ledger, t: Transfer)
    requires t.txID !in s.transactions
    requires t.source.account != t.dest.account
    ensures var o := RunLocalTransfer(s, t);
      && (o.committed <==> (Approves(s.accounts, t.source.account, -t.amount)
                           && Approves(s.accounts, t.dest.account, t.amount)))
      && (o.committed ==>
            o.after.accounts == s.accounts[t.source.account := s.accounts[t.source.account] - t.amount]
                                          [t.dest.account := s.accounts[t.dest.account] + t.amount])
      && (!o.committed ==> o.after.accounts == s.accounts)
      && o.after.transactions == s.transactions
  {
    LocalSteps(s, t);
    PairOutcome(s, t, RunLocalTransfer(s, t));
  }

  /** The outcome `LocalResult` describes, for two different accounts, in balances. */
  lemma PairOutcome(s: Ledger, t: Transfer, o: LocalOutcome)
    requires t.source.account != t.dest.account
    requires LocalResult(s, t, o)
    ensures o.committed <==> (Approves(s.accounts, t.source.account, -t.amount)
                             && Approves(s.accounts, t.dest.account, t.amount))
    ensures o.committed ==>
      o.after.accounts == s.accounts[t.source.account := s.accounts[t.source.account] - t.amount]
                                    [t.dest.account := s.accounts[t.dest.account] + t.amount]
    ensures !o.committed ==> o.after.accounts == s.accounts
    ensures o.after.transactions == s.transactions
  {
    if o.committed {
      ApplyPairHold(s.accounts, t.source.account, t.dest.account, -t.amount, t.amount);
    }
  }

  /**
   * A transfer from an account to itself, of either sign: it commits when
   * the account may take both the debit and the credit, and the
   * destination's vote overwrites the source's hold, so on commit the
   * account GAINS the amount instead of being left unchanged.
   */
  lemma SelfTransferCredits(s: Ledger, t: Transfer)
    requires t.txID !in s.transactions
    requires t.source.account == t.dest.account
    ensures var o := RunLocalTransfer(s, t);
      && (o.committed <==> (Approves(s.accounts, t.source.account, -t.amount)
                           && Approves(s.accounts, t.source.account, t.amount)))
      && (o.committed ==> o.after.accounts == s.accounts[t.source.account := s.accounts[t.source.account] + t.amount])
      && (!o.committed ==> o.after.accounts == s.accounts)
      && o.after.transactions == s.transactions
  {
    LocalSteps(s, t);
    SelfOutcome(s, t, RunLocalTransfer(s, t));
  }

  /** The outcome `LocalResult` describes, for one account on both sides, in balances. */
  lemma SelfOutcome(s: Ledger, t: Transfer, o: LocalOutcome)
    requires t.source.account == t.dest.account
    requires LocalResult(s, t, o)
    ensures o.committed <==> (Approves(s.accounts, t.source.account, -t.amount)
                             && Approves(s.accounts, t.source.account, t.amount))
    ensures o.committed ==> o.after.accounts == s.accounts[t.source.account := s.accounts[t.source.account] + t.amount]
    ensures !o.committed ==> o.after.accounts == s.accounts
    ensures o.after.transactions == s.transactions
  {
    var a := t.source.account;
    if o.committed {
      assert LocalHold(true, a, -t.amount, true, a, t.amount) == map[a := t.amount];
      ApplySingleHold(s.accounts, a, t.amount);
    }
  }

  /** With a non-negative amount the credit side always approves: commit iff the debit is allowed. */
  lemma SelfTransferNonNegative(s: Ledger, t: Transfer)
    requires t.txID !in s.transactions
    requires t.source.account == t.dest.account && t.amount >= 0
    ensures RunLocalTransfer(s, t).committed <==> Approves(s.accounts, t.source.account, -t.amount)
  {
    SelfTransferCredits(s, t);
  }

  /** A transfer of 30 from an account holding 100 to one holding 50 commits: 70 and 80. */
  lemma TransferExample()
    ensures var src := Ledger(map["A" := 100], map[]);
      var dst := Ledger(map["B" := 50], map[]);
      var t := Transfer("txn_0", 30, Endpoint("localhost", 8001, "A"), Endpoint("localhost", 8002, "B"));
      var o := RunTransfer(src, dst, t);
      o.committed && o.source == Ledger(map["A" := 70], map[]) && o.dest == Ledger(map["B" := 80], map[])
  {
    var src := Ledger(map["A" := 100], map[]);
    var dst := Ledger(map["B" := 50], map[]);
    var t := Transfer("txn_0", 30, Endpoint("localhost", 8001, "A"), Endpoint("localhost", 8002, "B"));
    TransferAtomic(src, dst, t);
    assert src.accounts["A" := 70] == map["A" := 70];
  }

  /** The same transfer of 130 aborts: the source would be overdrawn, and nothing moves. */
  lemma OverdraftExample()
    ensures var src := Ledger(map["A" := 100], map[]);
      var dst := Ledger(map["B" := 50], map[]);
      var t := Transfer("txn_1", 130, Endpoint("localhost", 8001, "A"), Endpoint("localhost", 8002, "B"));
      var o := RunTransfer(src, dst, t);
      !o.committed && o.source == src && o.dest == dst
  {
    var src := Ledger(map["A" := 100], map[]);
    var dst := Ledger(map["B" := 50], map[]);
    var t := Transfer("txn_1", 130, Endpoint("localhost", 8001, "A"), Endpoint("localhost", 8002, "B"));
    TransferAtomic(src, dst, t);
  }
}
