# Two-phase commit bank transfers, in Dafny

This project models a small two-phase-commit (2PC) bank-transfer system. A
coordinator process takes a list of transfers. It numbers them `txn_0`,
`txn_1`, … and pushes them onto a FIFO queue. A single worker thread drains
the queue. For each transfer it:

- asks the source participant to vote on `-amount` and the destination
  participant to vote on `+amount`;
- commits exactly when both participants vote yes;
- sends the same decision, `GLOBAL-COMMIT` or `GLOBAL-ABORT`, to both.

Each participant (a bank server) keeps a ledger of account balances and a
table of pending holds:

- `VOTE-REQUEST` approves when the account exists and the delta does not
  overdraw the committed balance. An approved vote records a hold.
- `GLOBAL-COMMIT` applies the transaction's holds and drops them.
- `GLOBAL-ABORT` drops the holds.
- A vote request is answered `VOTE-COMMIT <txID>` or `VOTE-ABORT <txID>`,
  and a decision `ACK <txID>`. A line with any other command gets no reply
  and changes nothing.

The modules are:

- `Text`: the white-space tokeniser behind `std::istringstream >>`, and the
  decimal text of amounts.
- `Wire`: the lines the coordinator's client sends, and how it reads a vote
  reply.
- `Participant`: the participant as pure functions over a `Ledger` value,
  plus a `BankServer` class whose two map fields are updated in place and
  proved against those functions.
- `Coordinator`: transaction ids, the exchange of four lines per transfer,
  and a `Coordinator` class holding the queue, the stop flag and the client
  pool keyed by port. Every sent line is recorded in order in an `outbox`.
- `TwoPhaseCommit`: both sides together. When the transaction id and both
  account names are single words, every coordinator line is read back by the
  participant as the request it was built from. A transfer between two
  distinct accounts is atomic: both balances move, or neither does. A transfer
  from an account to itself, when it commits, credits that account by the
  amount.

Amounts and balances are integers (minor units). Participants' replies to
the coordinator are a parameter, `replies: nat -> string`: the reply to the
k-th line sent is `replies(k)`.

## Model

| member | source | states |
|---|---|---|
| Text.Tokens | BankServer.h:76-80 | every token `>>` extracts from a line is a non-empty run of non-space characters |
| Text.TokensOfJoin | BankServer.h:76-80 | words joined by single spaces tokenise back to exactly those words |
| Text.AmountRoundTrip | CoordinatorClient.h:22 | the text of every amount is one token, and it reads back as the same amount |
| Text.AmountText | CoordinatorClient.h:22 | the text of an amount; `AmountRoundTrip` states that it is one token reading back as the amount |
| Text.ParseAmount | BankServer.h:80 | `>> amount` on a token; `AmountRoundTrip` states that it inverts `AmountText` |
| Text.NatTextInjective | coordinator.cpp:120 | two counter values have the same decimal text iff they are equal |
| Wire.Render | CoordinatorClient.h:44-46 | the text of a vote request or decision line; `RenderTokens` and `RequestRoundTrip` state its shape and that the participant reads it back |
| Wire.VoteAccepted | CoordinatorClient.h:28 | `requestVote`'s comparison; `VoteAcceptedOnlyExact` and `VoteReplyRead` state which replies it accepts |
| Wire.RenderTokens | CoordinatorClient.h:20-46 | a vote request or decision line is exactly the four tokens command, txID, account, amount |
| Wire.VoteAcceptedOnlyExact | CoordinatorClient.h:25-28 | only the exact reply `VOTE-COMMIT <txID>` is a yes; an empty reply, an abort, or a commit naming another txID is a no |
| Participant.Vote | BankServer.h:88-96 | the vote transition; `VoteOutcome`, `VoteBoundary` and `VoteUnknownAccount` state its rule, its boundary and its effect |
| Participant.Commit | BankServer.h:101-106 | the commit transition; `CommitEffect` and `CommitIdempotent` state its effect and idempotence |
| Participant.Abort | BankServer.h:126 | the abort transition; `AbortIdempotent` states its effect and idempotence |
| Participant.Step | BankServer.h:75-134 | one call of `process` on a parsed request; `StepReplies` and `StepKeepsHoldsKnown` state its replies and its invariant |
| Participant.ParseRequest | BankServer.h:76-80 | the four extractions of `process`; `RequestRoundTrip` states that they recover every coordinator line |
| Participant.ParseLedgerLine | BankServer.h:39-42 | `iss >> balance >> account` on one snapshot line, for integer balances; `MalformedLineSkipped` states what happens when it fails |
| Participant.LoadLines | BankServer.h:37-45 | the accounts after the snapshot lines; `LastLineWins`, `UnnamedAccountKept` and `LoadKeepsAccounts` state last-wins, skip and keep |
| Participant.ApplyHold | BankServer.h:102-104 | applying a hold keeps every account and adds the held ones (`operator[]` creates a missing account) |
| Participant.BankServer.constructor | BankServer.h:24-27 | a new server has no accounts and no pending holds; the source constructor then runs `loadAccounts`, which the model keeps as the separate `LoadAccounts` call |
| Participant.BankServer.LoadAccounts | BankServer.h:31-46 | an unopenable file is reported (the source throws); otherwise the accounts become `LoadLines` of the snapshot lines, and the holds are untouched |
| Participant.BankServer.VoteRequest | BankServer.h:82-97 | the in-place vote equals the `Vote` transition, and keeps every held account known |
| Participant.BankServer.GlobalCommit | BankServer.h:98-123 | the `+=` loop over the hold, followed by the erase, equals the `Commit` transition; the reply is `ACK <txID>` |
| Participant.BankServer.GlobalAbort | BankServer.h:124-132 | erasing the hold equals the `Abort` transition; the reply is `ACK <txID>` |
| Participant.BankServer.Process | BankServer.h:75-134 | handling a request line changes the state and replies exactly as `Step` on the parsed request does |
| Participant.ApplyHoldStep | BankServer.h:102-104 | one more iteration of the `+=` loop applies one more entry of the hold |
| Participant.VoteOutcome | BankServer.h:88-97 | the vote is commit iff the account exists and is not overdrawn by a negative delta; an abort changes nothing; a commit sets hold[txID][account] := amount, keeps the other entries and holds, and changes no balance |
| Participant.VoteBoundary | BankServer.h:88 | a known account accepts any credit, and accepts a debit that leaves exactly zero |
| Participant.VoteUnknownAccount | BankServer.h:88-91 | an unknown account votes abort for every amount, and the ledger is unchanged |
| Participant.CommitEffect | BankServer.h:101-106 | with held accounts known, a commit adds each held delta to its account, changes no other balance, creates no account, and removes only that transaction |
| Participant.CommitIdempotent | BankServer.h:101-123 | a commit with no hold is a no-op, so a repeated commit does nothing more |
| Participant.AbortIdempotent | BankServer.h:124-127 | an abort drops only that transaction's hold, touches no balance, and aborting twice equals aborting once |
| Participant.StepReplies | BankServer.h:75-134 | a vote request is answered with its vote; commit and abort are always answered `ACK <txID>`, hold or not; any other command changes nothing and gets no reply |
| Participant.StepKeepsHoldsKnown | BankServer.h:82-132 | every request keeps the invariant that held accounts exist, and keeps the set of accounts |
| Participant.VoteKeepsSolvent | BankServer.h:88-93 | a vote keeps balances non-negative and every pending debit covered, provided no other transaction holds a debit on the same account |
| Participant.HeldDebitWasThere | BankServer.h:93 | after a commit vote, every held entry is either the new one or an entry that was held before |
| Participant.CommitKeepsSolvent | BankServer.h:101-106 | committing a covered hold keeps every balance non-negative |
| Participant.AbortKeepsSolvent | BankServer.h:126 | aborting keeps the ledger solvent |
| Participant.ConcurrentDebitsOverdraw | BankServer.h:88-106 | the overdraft test ignores pending holds: two debits of 10 under different txIDs against a balance of 10 both pass, and committing both leaves -10 |
| Participant.LoadKeepsAccounts | BankServer.h:38-45 | reading snapshot lines never removes an account |
| Participant.MalformedLineSkipped | BankServer.h:42 | a line that is not `<balance> <account>` is skipped |
| Participant.LastLineWins | BankServer.h:43 | the last line naming an account decides its balance |
| Participant.UnnamedAccountKept | BankServer.h:38-45 | an account that no line names keeps its presence and its balance |
| Coordinator.TxIDInjective | coordinator.cpp:120 | `txn_m` and `txn_n` are equal iff m equals n |
| Coordinator.TxIDIsWord | coordinator.cpp:120 | a transaction id is a single token |
| Coordinator.TxID | coordinator.cpp:120 | the id `txn_<n>`; `TxIDInjective` and `TxIDIsWord` state that ids differ and are single tokens |
| Coordinator.AssignTransactionIDs | coordinator.cpp:109-125 | the k-th order becomes the transfer with id `txn_k`, its other fields are unchanged, and all ids are distinct |
| Coordinator.Connected | coordinator.cpp:59-65 | one pool lookup, keyed by port only; `Coordinator.Connect` is proved to perform it |
| Coordinator.Grow | coordinator.cpp:56-74 | the pool after connecting both sides of each queued transfer; `GrowKeys`, `GrowNewSource` and `GrowNewDest` state its ports and hosts |
| Coordinator.GrowKeys | coordinator.cpp:56-74 | growing keeps every pooled client and adds exactly the ports the transfers name |
| Coordinator.GrowPrefix | coordinator.cpp:56-74 | a client pooled after a prefix of the queue is still the pooled client after the whole queue |
| Coordinator.GrowNewSource | coordinator.cpp:59-62 | the first transfer naming an unpooled port as its source fixes that port's client as a client for the source host |
| Coordinator.GrowNewDest | coordinator.cpp:67-70 | the same for a destination port not named before, nor by the same transfer's source |
| Coordinator.SourceVote | coordinator.cpp:80 | the source's vote request, a debit; `ExchangeProtocol` states its fields |
| Coordinator.DestVote | coordinator.cpp:81 | the destination's vote request, a credit; `ExchangeProtocol` states its fields |
| Coordinator.SourceDecision | coordinator.cpp:85-89 | the source's decision line, repeating its vote's account and amount (`ExchangeProtocol`) |
| Coordinator.DestDecision | coordinator.cpp:86-90 | the destination's decision line, repeating its vote's account and amount (`ExchangeProtocol`) |
| Coordinator.Decide | coordinator.cpp:84 | commit iff both replies are exact commit votes; `ExchangeProtocol` and `VoteReplyRead` state what it decides |
| Coordinator.Exchange | coordinator.cpp:79-92 | the four lines of one transfer; `ExchangeProtocol` states their order, signs and common decision |
| Coordinator.Exchanges | coordinator.cpp:28-93 | draining n transfers sends exactly 4n lines |
| Coordinator.ExchangeProtocol | coordinator.cpp:79-92 | the votes go source then destination, naming the source account with -amount and then the destination account with +amount; one decision, commit iff both replies are exact commit votes, goes to both through the clients that carried their votes, repeating each vote's txID, account and amount |
| Coordinator.ExchangesPoolExtends | coordinator.cpp:59-73 | adding clients for new ports never changes what is sent for transfers already seen |
| Coordinator.AcksIgnored | CoordinatorClient.h:48-51 | the replies to finalisation lines have no effect on anything the coordinator sends |
| Coordinator.ExchangesAt | coordinator.cpp:39-40 | FIFO: the k-th queued transfer is handled k-th, taking lines 4k to 4k+3, with the replies at those positions |
| Coordinator.Coordinator.constructor | coordinator.cpp:14-22 | the queue is empty, stop is unset, no clients exist and nothing has been sent |
| Coordinator.Coordinator.Enqueue | coordinator.cpp:132-137 | the transfer joins the back of the queue, and the pool is unchanged |
| Coordinator.Coordinator.SignalStop | coordinator.cpp:141-144 | the stop flag is set |
| Coordinator.Coordinator.Connect | coordinator.cpp:59-65 | a connected port reuses its client whatever the host; a new port gets a new client for this host, counted once; no existing entry changes |
| Coordinator.Coordinator.RequestVote | CoordinatorClient.h:20-29 | sends exactly one vote request line, and returns true iff the reply is exactly `VOTE-COMMIT <txID>` |
| Coordinator.Coordinator.FinalizeTransaction | CoordinatorClient.h:42-51 | sends exactly one `GLOBAL-COMMIT` or `GLOBAL-ABORT` line, and reads and drops the reply |
| Coordinator.Coordinator.RunExchange | coordinator.cpp:79-92 | the lines sent are exactly the four of `Exchange` for the two replies read |
| Coordinator.Coordinator.ConnectBoth | coordinator.cpp:56-74 | both ports become connected and their pooled clients are returned; the pool is `Connected` for the source then the destination, so a port seen for the first time gets a client for that endpoint's host; the number of clients still equals the number of connected ports |
| Coordinator.Coordinator.HandleNext | coordinator.cpp:38-92 | takes the front of the queue, grows the pool as `ConnectBoth` does (a new port's client is for its endpoint's host), and sends the four lines through the pooled clients of its two ports |
| Coordinator.Coordinator.HandleTransaction | coordinator.cpp:25-94 | drains the whole queue in FIFO order, appending the exchanges of the transfers in queue order; it exits exactly when stop is set; the pool becomes `Grow` of the queue (so each new port's client is for the host that first named it), connected ports grow by the ports named, and one client exists per connected port |
| Coordinator.Coordinator.Advance | coordinator.cpp:38-92 | one pass of the worker loop moves the drained-so-far description on by exactly the transfer at the front of the queue |
| TwoPhaseCommit.RequestRoundTrip | BankServer.h:76-80 | the participant parses every coordinator line back into its command, txID, account and amount |
| TwoPhaseCommit.VoteReplyRead | CoordinatorClient.h:28 | the coordinator reads a participant's vote reply as yes iff the participant voted commit |
| TwoPhaseCommit.ProcessRendered | BankServer.h:75-134 | `process` on a coordinator line votes on a vote request and commits or aborts on a decision |
| TwoPhaseCommit.Receive | BankServer.h:82-132 | what `process` does with a message; `ProcessRendered` states that it equals `Step` on the message's text |
| TwoPhaseCommit.Deliver | BankServer.h:75-134 | `process` applied to the text of a coordinator line; `TransferOnWire` uses it |
| TwoPhaseCommit.RunTransfer | coordinator.cpp:79-92 | one transfer across two participants, built from the messages `Exchange` sends; `TransferAtomic` states its outcome |
| TwoPhaseCommit.WireTransfer | coordinator.cpp:79-92 | the same transfer with every line rendered and parsed |
| TwoPhaseCommit.TransferOnWire | coordinator.cpp:79-92 | with single-word id and accounts, the transfer run over the line texts has the same outcome, so `TransferAtomic` holds of the lines sent |
| TwoPhaseCommit.RunLocalTransfer | coordinator.cpp:79-92 | one transfer whose two sides are on one participant, the four lines arriving in order; `LocalSteps` states its outcome |
| TwoPhaseCommit.WireLocalTransfer | coordinator.cpp:79-92 | the same with every line rendered and parsed |
| TwoPhaseCommit.LocalTransferOnWire | coordinator.cpp:79-92 | with single-word id and accounts, the one-participant run over the line texts has the same outcome |
| TwoPhaseCommit.ExchangeReadBack | coordinator.cpp:80-90 | each of the four lines of an exchange is handled by the participant as the message it carries |
| TwoPhaseCommit.SideOutcome | BankServer.h:82-132 | one participant's side of a transfer: the vote reads as yes iff the vote rule approves; after the decision the hold is gone and the balance moved iff committed |
| TwoPhaseCommit.TransferAtomic | coordinator.cpp:79-92 | across two participants, with a fresh txID: commit iff the source may be debited and the destination exists; a commit debits the source and credits the destination by the amount; an abort changes no balance; no hold remains |
| TwoPhaseCommit.LocalSteps | coordinator.cpp:79-92 | with both accounts on one participant, the outcome is commit iff both votes approve, and a commit applies the hold both votes left |
| TwoPhaseCommit.LocalTransferAtomic | coordinator.cpp:79-92 | with both accounts on one participant and distinct: the same atomicity as across two participants |
| TwoPhaseCommit.SelfTransferCredits | BankServer.h:93 | a transfer of any sign from an account to itself commits iff the account may take both the debit and the credit, and then credits the account by the amount, because the second vote overwrites the first hold |
| TwoPhaseCommit.SelfTransferNonNegative | BankServer.h:88 | for a non-negative amount, the self-transfer commits iff the debit is allowed |
| TwoPhaseCommit.TransferExample | coordinator.cpp:80-92 | moving 30 from A (100) to B (50) commits and leaves 70 and 80 |
| TwoPhaseCommit.OverdraftExample | coordinator.cpp:80-92 | moving 130 from A (100) aborts and leaves both ledgers unchanged |

## Left out

- Sockets, `respond`, `send_request` and `get_response` are not modelled as I/O. A sent line is appended to the coordinator's `outbox`. A participant's reply is the value `Step` returns. The coordinator's reads come from the `replies` parameter.
- A send or receive failure that ends an exchange early is not modelled. In the model all four lines of an exchange are sent and handled. In the source, `respond` throws on a failed send after `process` has already changed the ledger (TCPServer.cpp:66-68), and neither `handle_client` (TCPServer.cpp:48-63) nor the coordinator's `handleTransaction` (coordinator.cpp:25-94) catches an exception. A failure between coordinator.cpp:85 and 86 would leave the source debited and the destination not credited. `TransferAtomic` and `LocalTransferAtomic` are proved only for exchanges whose four lines are all delivered and handled. The client's `get_response` is not part of this model.
- `saveAccounts` (BankServer.h:48-67) writes the ledger to a file after each commit. It is file I/O that changes no state the model keeps, so it is not modelled.
- The logger, `start_client`, and the TCP server classes (TCPServer.h, TCPServer.cpp) are not part of this model.
- Mutexes, the condition variable, and the worker thread running alongside the producer are left out. `HandleTransaction` runs the worker until the queue is empty. It returns true when stop is set; false stands for the point where the real worker blocks on the condition variable. Interleavings of several participants' connection threads are not modelled. `ConcurrentDebitsOverdraw` shows that even serialised votes from two transactions can overdraw an account.
- Money is `double` in the source and `int` (minor units) here:
  - `std::to_string(amount)` writes six decimals (`30.000000`); `AmountText` writes `30`.
  - Both read back to the same value, but the model does not represent fractions.
  - `>>` into a `double` also accepts forms the model does not, such as exponents and leading `+`.
- Participant.Step: for a `VOTE-REQUEST` whose amount token is missing or unreadable, the source votes on an uninitialised or zeroed `amount`. Step requires the amount to be present (`Defined`), and so do `Process` and `ProcessRendered`. A line the coordinator sends meets this when its transaction id and account are single words (`RequestRoundTrip`, `Wordy`). Ids always are (`TxIDIsWord`). An account name taken from the command line may be empty or contain a space (coordinator.cpp:115, 118): the line then splits into other tokens, and what the participant does with it is not modelled.
- Participant.BankServer.Process: requires `Defined` of the parsed request, for the reason just given.
- Participant.ParseLedgerLine: reads the balance token only in the integer form of `ParseAmount`. A line whose balance has a numeric prefix (`12abc x`), an exponent (`1e3 x`) or a leading `+` (`+5 x`) is skipped, where the source's `>> double` would read a value.
- Participant.BankServer.LoadAccounts: reports an unopenable file as `false` instead of throwing. It parses a balance only in the integer form of `ParseAmount`, not the numeric-prefix reading of `>> double` (a line like `12abc x` is skipped here). It leaves the server's existing accounts in place, as the source's map does.
- Coordinator.AssignTransactionIDs: the counter is an unbounded `nat`. The source's `int transactionCounter` would overflow after 2^31 - 1 transfers, which this model does not capture.
- `main`'s command-line parsing (coordinator.cpp:96-118), the usage message, and the deletion of clients at exit are not modelled. Only the id assignment and the enqueue/stop steps are.
- Atomicity is proved for one transfer at a time, from a ledger that has no hold under its txID. Runs of several transfers are not composed into one statement.
- The pool is keyed by port alone, as in the code (coordinator.cpp:21-22, 59-73). A second host on an already connected port reuses the first host's client. A design keyed by (host, port) would give that host its own client; the model follows the code, which does not.
