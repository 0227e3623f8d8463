/**
 * The coordinator's side of the wire format (CoordinatorClient.h): the lines
 * `requestVote` and `finalizeTransaction` send, and the one reply that
 * `requestVote` reads as a commit vote.  A sent line is kept as a `Message`
 * value; `Render` gives its text.  Sending and receiving themselves are
 * modelled in the Coordinator module.
 */
module Wire {
  import opened Text

  /** The two kinds of line the coordinator sends a participant. */
  datatype Message =
    | VoteRequest(txID: string, account: string, amount: int)
    | Finalize(txID: string, commit: bool, account: string, amount: int)

  /** The command word of a global decision. */
  function Decision(commit: bool): string {
    if commit then "GLOBAL-COMMIT" else "GLOBAL-ABORT"
  }

  /** The first word of a message. */
  function Command(m: Message): string {
    match m
    case VoteRequest(_, _, _) => "VOTE-REQUEST"
    case Finalize(_, commit, _, _) => Decision(commit)
  }

  /**
   * The text of a message on the wire: its command, transaction id, account
   * and amount, separated by single spaces.
   */
  function Render(m: Message): string {
    Command(m) + " " + m.txID + " " + m.account + " " + AmountText(m.amount)
  }

  /** `requestVote`'s verdict on the participant's reply. */
  predicate VoteAccepted(response: string, txID: string) {
    response == "VOTE-COMMIT " + txID
  }

  /** Every message is the four words command, txID, account, amount. */
  lemma RenderTokens(m: Message)
    requires IsWord(m.txID) && IsWord(m.account)
    ensures Tokens(Render(m)) == [Command(m), m.txID, m.account, AmountText(m.amount)]
  {
    var ws := [Command(m), m.txID, m.account, AmountText(m.amount)];
    AmountRoundTrip(m.amount);
    CommandIsWord(m);
    JoinFour(Command(m), m.txID, m.account, AmountText(m.amount));
    TokensOfJoin(ws);
  }

  /** A command is a single word. */
  lemma CommandIsWord(m: Message)
    ensures IsWord(Command(m))
  {
  }

  /** Four words joined are the words with a space between each pair. */
  lemma JoinFour(a: string, b: string, c: string, d: string)
    ensures Join([a, b, c, d]) == a + " " + b + " " + c + " " + d
  {
    var ws := [a, b, c, d];
    assert ws[1..] == [b, c, d] && ws[1..][1..] == [c, d] && ws[1..][1..][1..] == [d];
    calc {
      Join(ws);
      a + " " + Join([b, c, d]);
      a + " " + (b + " " + Join([c, d]));
      a + " " + (b + " " + (c + " " + d));
      a + " " + b + " " + c + " " + d;
    }
  }

  /**
   * Only the exact commit reply for this transaction is a yes: an empty
   * reply, an abort reply, and a commit reply naming another transaction
   * are all read as no.
   */
  lemma VoteAcceptedOnlyExact(response: string, txID: string, other: string)
    ensures !VoteAccepted("", txID)
    ensures !VoteAccepted("VOTE-ABORT " + txID, txID)
    ensures VoteAccepted("VOTE-COMMIT " + other, txID) <==> other == txID
  {
    assert ("VOTE-ABORT " + txID)[5] != ("VOTE-COMMIT " + txID)[5];
    if VoteAccepted("VOTE-COMMIT " + other, txID) {
      var p := "VOTE-COMMIT ";
      assert (p + other)[|p|..] == other;
      assert (p + txID)[|p|..] == txID;
    }
  }
}
