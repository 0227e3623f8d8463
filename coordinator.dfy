/**
 * The coordinator (coordinator.cpp): transaction ids, the FIFO queue drained
 * by one worker, the client pool keyed by port, and the two-phase exchange
 * the worker runs for each transfer.
 *
 * A client is the value of the host and port it connected to (there is at
 * most one per port); every line a client sends is appended to `outbox`.
 * The participants' replies are an oracle: the reply to the line at
 * position k of `outbox` is `replies(k)`.
 */
module Coordinator {
  import opened Text
  import opened Wire

  /** Where one side of a transfer lives. */
  datatype Endpoint = Endpoint(host: string, port: int, account: string)

  /** A transfer as given to the coordinator, before it has an id. */
  datatype Order = Order(amount: int, source: Endpoint, dest: Endpoint)

  /** The queued tuple: id, amount, source and destination. */
  datatype Transfer = Transfer(txID: string, amount: int, source: Endpoint, dest: Endpoint)

  /** A `CoordinatorClient`: connected to the host and port it was created for. */
  datatype Client = Client(host: string, port: int)

  /** A line sent through `client`; its text is `Render(message)`. */
  datatype Sent = Sent(client: Client, message: Message)

  /** `"txn_" + std::to_string(transactionCounter)`. */
  function TxID(n: nat): string {
    "txn_" + NatText(n)
  }

  /** Different counter values give different ids. */
  lemma TxIDInjective(m: nat, n: nat)
    ensures TxID(m) == TxID(n) <==> m == n
  {
    if TxID(m) == TxID(n) {
      var p := "txn_";
      assert (p + NatText(m))[|p|..] == NatText(m);
      assert (p + NatText(n))[|p|..] == NatText(n);
      NatTextInjective(m, n);
    }
  }

  /** An id is a single token, so a participant reads it back whole. */
  lemma TxIDIsWord(n: nat)
    ensures IsWord(TxID(n))
  {
    var p, d := "txn_", NatText(n);
    forall i | 0 <= i < |p + d| ensures !IsSpace((p + d)[i]) {
      if i >= |p| {
        assert (p + d)[i] == d[i - |p|];
      }
    }
  }

  /** Numbers the orders as `main` does: the k-th order gets id `txn_k`. */
  method AssignTransactionIDs(orders: seq<Order>) returns (transfers: seq<Transfer>)
    ensures |transfers| == |orders|
    ensures forall i :: 0 <= i < |orders| ==>
      transfers[i] == Transfer(TxID(i), orders[i].amount, orders[i].source, orders[i].dest)
    ensures forall i, j :: 0 <= i < j < |transfers| ==> transfers[i].txID != transfers[j].txID
  {
    transfers := [];
    var transactionCounter: nat := 0;
    while transactionCounter < |orders|
      invariant transactionCounter <= |orders|
      invariant |transfers| == transactionCounter
      invariant forall i :: 0 <= i < transactionCounter ==>
        transfers[i] == Transfer(TxID(i), orders[i].amount, orders[i].source, orders[i].dest)
    {
      var o := orders[transactionCounter];
      transfers := transfers + [Transfer(TxID(transactionCounter), o.amount, o.source, o.dest)];
      transactionCounter := transactionCounter + 1;
    }
    forall i, j | 0 <= i < j < |transfers| ensures transfers[i].txID != transfers[j].txID {
      TxIDInjective(i, j);
    }
  }

  /** The ports the transfers name, source and destination. */
  function Ports(ts: seq<Transfer>): set<int>
    decreases |ts|
  {
    if ts == [] then {}
    else Ports(ts[..|ts| - 1]) + {ts[|ts| - 1].source.port, ts[|ts| - 1].dest.port}
  }

  /** The pool after connecting to `host:port`: a port not yet pooled gets a client for this host. */
  function Connected(pool: map<int, Client>, host: string, port: int): map<int, Client> {
    if port in pool then pool else pool[port := Client(host, port)]
  }

  /** The pool after the worker has connected both sides of each transfer of `ts`, in order. */
  function Grow(pool: map<int, Client>, ts: seq<Transfer>): map<int, Client>
    decreases |ts|
  {
    if ts == [] then pool
    else
      var t := ts[|ts| - 1];
      Connected(Connected(Grow(pool, ts[..|ts| - 1]), t.source.host, t.source.port), t.dest.host, t.dest.port)
  }

  lemma GrowSnoc(pool: map<int, Client>, ts: seq<Transfer>, t: Transfer)
    ensures Grow(pool, ts + [t])
         == Connected(Connected(Grow(pool, ts), t.source.host, t.source.port), t.dest.host, t.dest.port)
  {
    assert (ts + [t])[..|ts|] == ts;
  }

  /** Growing the pool keeps every pooled client and adds exactly the ports named. */
  lemma {:induction false} GrowKeys(pool: map<int, Client>, ts: seq<Transfer>)
    ensures Grow(pool, ts).Keys == pool.Keys + Ports(ts)
    ensures PoolExtends(pool, Grow(pool, ts))
    decreases |ts|
  {
    if ts != [] {
      GrowKeys(pool, ts[..|ts| - 1]);
    }
  }

  /** The pool after a prefix of the transfers is kept by the pool after all of them. */
  lemma {:induction false} GrowPrefix(pool: map<int, Client>, ts: seq<Transfer>, j: nat)
    requires j <= |ts|
    ensures PoolExtends(Grow(pool, ts[..j]), Grow(pool, ts))
    decreases |ts|
  {
    if j == |ts| {
      assert ts[..j] == ts;
    } else {
      var init := ts[..|ts| - 1];
      assert init[..j] == ts[..j];
      GrowPrefix(pool, init, j);
      GrowKeys(Grow(pool, init), [ts[|ts| - 1]]);
      assert [ts[|ts| - 1]][..0] == [];
      assert Grow(Grow(pool, init), [ts[|ts| - 1]]) == Grow(pool, ts);
      PoolExtendsTransitive(Grow(pool, ts[..j]), Grow(pool, init), Grow(pool, ts));
    }
  }

  /**
   * The first transfer that names a port not yet pooled as its source
   * decides the host of that port's client for good.
   */
  lemma GrowNewSource(pool: map<int, Client>, ts: seq<Transfer>, k: nat)
    requires k < |ts|
    requires ts[k].source.port !in pool && ts[k].source.port !in Ports(ts[..k])
    ensures ts[k].source.port in Grow(pool, ts)
    ensures Grow(pool, ts)[ts[k].source.port] == Client(ts[k].source.host, ts[k].source.port)
  {
    var t := ts[k];
    GrowKeys(pool, ts[..k]);
    assert ts[..k + 1] == ts[..k] + [t];
    GrowSnoc(pool, ts[..k], t);
    GrowPrefix(pool, ts, k + 1);
  }

  /**
   * Likewise for a destination port that neither the pool, the earlier
   * transfers nor the same transfer's source has named.
   */
  lemma GrowNewDest(pool: map<int, Client>, ts: seq<Transfer>, k: nat)
    requires k < |ts|
    requires ts[k].dest.port !in pool && ts[k].dest.port !in Ports(ts[..k])
    requires ts[k].dest.port != ts[k].source.port
    ensures ts[k].dest.port in Grow(pool, ts)
    ensures Grow(pool, ts)[ts[k].dest.port] == Client(ts[k].dest.host, ts[k].dest.port)
  {
    var t := ts[k];
    GrowKeys(pool, ts[..k]);
    assert ts[..k + 1] == ts[..k] + [t];
    GrowSnoc(pool, ts[..k], t);
    GrowPrefix(pool, ts, k + 1);
  }

  /** The vote request for the source side: a debit of the amount. */
  function SourceVote(t: Transfer): Message {
    VoteRequest(t.txID, t.source.account, -t.amount)
  }

  /** The vote request for the destination side: a credit of the amount. */
  function DestVote(t: Transfer): Message {
    VoteRequest(t.txID, t.dest.account, t.amount)
  }

  /** The decision line for the source side, repeating its vote's account and amount. */
  function SourceDecision(t: Transfer, commit: bool): Message {
    Finalize(t.txID, commit, t.source.account, -t.amount)
  }

  /** The decision line for the destination side. */
  function DestDecision(t: Transfer, commit: bool): Message {
    Finalize(t.txID, commit, t.dest.account, t.amount)
  }

  /** The global decision: commit when both replies are commit votes for `txID`. */
  predicate Decide(txID: string, sourceReply: string, destReply: string) {
    VoteAccepted(sourceReply, txID) && VoteAccepted(destReply, txID)
  }

  /**
   * The four lines the worker sends for one transfer through clients `src`
   * and `dst`, given the replies to the two vote requests: the votes, source
   * first, then one common decision, source first.
   */
  function Exchange(t: Transfer, src: Client, dst: Client, sourceReply: string, destReply: string): seq<Sent> {
    var commit := Decide(t.txID, sourceReply, destReply);
    [ Sent(src, SourceVote(t)), Sent(dst, DestVote(t)),
      Sent(src, SourceDecision(t, commit)), Sent(dst, DestDecision(t, commit)) ]
  }

  /**
   * The two-phase shape of one exchange: a vote request to each side, source
   * first, debit then credit, each naming that side's account; then one decision, sent to each side through
   * the client that carried its vote and repeating that vote's transaction,
   * account and amount; the decision is commit exactly when both replies
   * were exact commit votes.
   */
  lemma ExchangeProtocol(t: Transfer, src: Client, dst: Client, sourceReply: string, destReply: string)
    ensures var e := Exchange(t, src, dst, sourceReply, destReply);
      && |e| == 4
      && e[0].client == src && e[1].client == dst && e[2].client == src && e[3].client == dst
      && e[0].message.VoteRequest? && e[1].message.VoteRequest?
      && e[0].message.account == t.source.account && e[1].message.account == t.dest.account
      && e[0].message.amount == -t.amount && e[1].message.amount == t.amount
      && e[2].message.Finalize? && e[3].message.Finalize?
      && e[2].message.commit == e[3].message.commit
      && (e[2].message.commit <==> VoteAccepted(sourceReply, t.txID) && VoteAccepted(destReply, t.txID))
      && e[0].message.txID == e[2].message.txID == t.txID
      && e[1].message.txID == e[3].message.txID == t.txID
      && e[0].message.account == e[2].message.account && e[0].message.amount == e[2].message.amount
      && e[1].message.account == e[3].message.account && e[1].message.amount == e[3].message.amount
  {
  }

  /**
   * The lines sent for a run of transfers, starting at outbox position
   * `base`, with clients looked up by port in `pool`.
   */
  function Exchanges(ts: seq<Transfer>, pool: map<int, Client>, replies: nat -> string, base: nat): (e: seq<Sent>)
    requires Ports(ts) <= pool.Keys
    ensures |e| == 4 * |ts|
    decreases |ts|
  {
    if ts == [] then []
    else
      var k := |ts| - 1;
      var t := ts[k];
      Exchanges(ts[..k], pool, replies, base)
        + Exchange(t, pool[t.source.port], pool[t.dest.port], replies(base + 4 * k), replies(base + 4 * k + 1))
  }

  /** `big` keeps every entry of `small`. */
  ghost predicate PoolExtends(small: map<int, Client>, big: map<int, Client>) {
    forall p :: p in small ==> p in big && big[p] == small[p]
  }

  /** Growing the pool does not change the client a known port maps to. */
  lemma {:induction false} ExchangesPoolExtends(ts: seq<Transfer>, pool: map<int, Client>, pool': map<int, Client>,
                                                replies: nat -> string, base: nat)
    requires Ports(ts) <= pool.Keys && Ports(ts) <= pool'.Keys
    requires PoolExtends(pool, pool')
    ensures Exchanges(ts, pool, replies, base) == Exchanges(ts, pool', replies, base)
    decreases |ts|
  {
    if ts != [] {
      ExchangesPoolExtends(ts[..|ts| - 1], pool, pool', replies, base);
    }
  }

  /**
   * The acknowledgements are read and dropped: replies to the finalisation
   * lines (positions 4k+2 and 4k+3) do not affect anything that is sent.
   */
  lemma {:induction false} AcksIgnored(ts: seq<Transfer>, pool: map<int, Client>, r1: nat -> string, r2: nat -> string, base: nat)
    requires Ports(ts) <= pool.Keys
    requires forall k :: 0 <= k < |ts| ==>
      r1(base + 4 * k) == r2(base + 4 * k) && r1(base + 4 * k + 1) == r2(base + 4 * k + 1)
    ensures Exchanges(ts, pool, r1, base) == Exchanges(ts, pool, r2, base)
    decreases |ts|
  {
    if ts != [] {
      AcksIgnored(ts[..|ts| - 1], pool, r1, r2, base);
      assert r1(base + 4 * (|ts| - 1)) == r2(base + 4 * (|ts| - 1));
    }
  }

  /**
   * FIFO: the k-th transfer's four lines sit at positions 4k to 4k+3 of the
   * run, sent with the replies found at the matching outbox positions.
   */
  lemma {:induction false} ExchangesAt(ts: seq<Transfer>, pool: map<int, Client>, replies: nat -> string, base: nat, k: nat)
    requires Ports(ts) <= pool.Keys
    requires k < |ts|
    ensures ts[k].source.port in pool && ts[k].dest.port in pool
    ensures Exchanges(ts, pool, replies, base)[4 * k .. 4 * k + 4]
         == Exchange(ts[k], pool[ts[k].source.port], pool[ts[k].dest.port],
                     replies(base + 4 * k), replies(base + 4 * k + 1))
    decreases |ts|
  {
    var n := |ts| - 1;
    var front := ts[..n];
    assert Ports(front) <= Ports(ts);
    var e := Exchanges(ts, pool, replies, base);
    var ef := Exchanges(front, pool, replies, base);
    var t := ts[n];
    var x := Exchange(t, pool[t.source.port], pool[t.dest.port], replies(base + 4 * n), replies(base + 4 * n + 1));
    assert e == ef + x;
    if k < n {
      ExchangesAt(front, pool, replies, base, k);
      assert front[k] == ts[k];
      assert e[4 * k .. 4 * k + 4] == ef[4 * k .. 4 * k + 4];
    } else {
      assert e[4 * k .. 4 * k + 4] == x;
    }
  }

  lemma PortsSnoc(ts: seq<Transfer>, t: Transfer)
    ensures Ports(ts + [t]) == Ports(ts) + {t.source.port, t.dest.port}
  {
    assert (ts + [t])[..|ts|] == ts;
  }

  lemma ExchangesSnoc(ts: seq<Transfer>, t: Transfer, pool: map<int, Client>, replies: nat -> string, base: nat)
    requires Ports(ts + [t]) <= pool.Keys
    ensures Ports(ts) <= pool.Keys
    ensures Exchanges(ts + [t], pool, replies, base)
         == Exchanges(ts, pool, replies, base)
            + Exchange(t, pool[t.source.port], pool[t.dest.port],
                       replies(base + 4 * |ts|), replies(base + 4 * |ts| + 1))
  {
    var ts' := ts + [t];
    PortsSnoc(ts, t);
    assert ts'[..|ts'| - 1] == ts;
    assert ts'[|ts'| - 1] == t;
    var k := |ts'| - 1;
    assert k == |ts|;
    assert Exchanges(ts', pool, replies, base)
        == Exchanges(ts'[..k], pool, replies, base)
           + Exchange(t, pool[t.source.port], pool[t.dest.port], replies(base + 4 * k), replies(base + 4 * k + 1));
  }

  /**
   * One more transfer handled: if the outbox held the exchanges of `done`
   * and the worker then sent the exchange of `t` with clients from a grown
   * pool, it holds the exchanges of `done + [t]` in that pool.
   */
  lemma ExchangesStep(prior: seq<Sent>, before: seq<Sent>, after: seq<Sent>, done: seq<Transfer>, t: Transfer,
                      pool: map<int, Client>, pool': map<int, Client>, replies: nat -> string, base: nat)
    requires base == |prior|
    requires Ports(done) <= pool.Keys && PoolExtends(pool, pool')
    requires t.source.port in pool' && t.dest.port in pool'
    requires before == prior + Exchanges(done, pool, replies, base)
    requires after == before + Exchange(t, pool'[t.source.port], pool'[t.dest.port],
                                        replies(|before|), replies(|before| + 1))
    ensures Ports(done + [t]) <= pool'.Keys
    ensures after == prior + Exchanges(done + [t], pool', replies, base)
  {
    PortsSnoc(done, t);
    forall p | p in Ports(done + [t]) ensures p in pool' {
      if p in Ports(done) {
        assert p in pool;
      }
    }
    var es := Exchanges(done, pool', replies, base);
    var k := base + 4 * |done|;
    var e := Exchange(t, pool'[t.source.port], pool'[t.dest.port], replies(k), replies(k + 1));
    ExchangesSnoc(done, t, pool', replies, base);
    assert Exchanges(done + [t], pool', replies, base) == es + e;
    calc {
      after;
      { assert |before| == k; }
      before + e;
      { ExchangesPoolExtends(done, pool, pool', replies, base); }
      prior + es + e;
      { AppendAssociative(prior, es, e); }
      prior + (es + e);
    }
  }

  /** Concatenation is associative. */
  lemma AppendAssociative<T>(a: seq<T>, b: seq<T>, c: seq<T>)
    ensures a + b + c == a + (b + c)
  {
  }

  /** The ports connected after one more transfer. */
  lemma PortsStep(ports0: set<int>, before: set<int>, after: set<int>, done: seq<Transfer>, t: Transfer)
    requires before == ports0 + Ports(done)
    requires after == before + {t.source.port, t.dest.port}
    ensures after == ports0 + Ports(done + [t])
  {
    PortsSnoc(done, t);
  }

  /** Adding two ports one after the other adds both. */
  lemma AddTwo(ports0: set<int>, ports1: set<int>, ports2: set<int>, p: int, q: int)
    requires ports1 == ports0 + {p} && ports2 == ports1 + {q}
    ensures ports2 == ports0 + {p, q}
  {
  }

  /** Moving the head of a queue onto the end of what was done before it. */
  lemma MoveFront<T>(done: seq<T>, queue: seq<T>)
    requires queue != []
    ensures done + queue == (done + [queue[0]]) + queue[1..]
  {
    assert queue == [queue[0]] + queue[1..];
  }

  lemma AppendEmpty<T>(s: seq<T>)
    ensures [] + s == s && s + [] == s
  {
  }

  /** Extending a pool twice extends it. */
  lemma PoolExtendsTransitive(a: map<int, Client>, b: map<int, Client>, c: map<int, Client>)
    requires PoolExtends(a, b) && PoolExtends(b, c)
    ensures PoolExtends(a, c)
  {
  }

  /**
   * Where the worker stands after handling `done`, having started from the
   * connected ports `ports0`, the pool `pool0` and the sent lines `prior`:
   * the ports of `done` joined the pool, no pooled client was replaced, and
   * the exchanges of `done` followed `prior`, in order.
   */
  ghost predicate Drained(done: seq<Transfer>, ports0: set<int>, pool0: map<int, Client>, prior: seq<Sent>,
                          base: nat, replies: nat -> string,
                          ports: set<int>, pool: map<int, Client>, outbox: seq<Sent>)
  {
    && base == |prior|
    && ports == ports0 + Ports(done)
    && PoolExtends(pool0, pool)
    && Ports(done) <= pool.Keys
    && pool == Grow(pool0, done)
    && outbox == prior + Exchanges(done, pool, replies, base)
  }

  /** Handling one more transfer `t`, as the worker does, keeps `Drained`. */
  lemma DrainedStep(done: seq<Transfer>, ports0: set<int>, pool0: map<int, Client>, prior: seq<Sent>,
                    base: nat, replies: nat -> string,
                    ports: set<int>, pool: map<int, Client>, outbox: seq<Sent>, t: Transfer,
                    ports': set<int>, pool': map<int, Client>, outbox': seq<Sent>)
    requires Drained(done, ports0, pool0, prior, base, replies, ports, pool, outbox)
    requires ports' == ports + {t.source.port, t.dest.port}
    requires PoolExtends(pool, pool')
    requires pool' == Connected(Connected(pool, t.source.host, t.source.port), t.dest.host, t.dest.port)
    requires t.source.port in pool' && t.dest.port in pool'
    requires outbox' == outbox + Exchange(t, pool'[t.source.port], pool'[t.dest.port],
                                          replies(|outbox|), replies(|outbox| + 1))
    ensures Drained(done + [t], ports0, pool0, prior, base, replies, ports', pool', outbox')
  {
    ExchangesStep(prior, outbox, outbox', done, t, pool, pool', replies, base);
    PoolExtendsTransitive(pool0, pool, pool');
    GrowSnoc(pool0, done, t);
    PortsStep(ports0, ports, ports', done, t);
  }

  class Coordinator {
    var transactionQueue: seq<Transfer>
    var stop: bool
    /** The connection pool: port to the client created for it. */
    var clientConnections: map<int, Client>
    var connectedPorts: set<int>
    /** How many clients have been created. */
    var created: nat
    /** Every line sent, in order. */
    var outbox: seq<Sent>
    /** The pool: one client per connected port, created for that port. */
    ghost predicate Valid()
      reads this`clientConnections, this`connectedPorts, this`created
    {
      && connectedPorts == clientConnections.Keys
      && created == |connectedPorts|
      && (forall p :: p in clientConnections ==> clientConnections[p].port == p)
    }

    constructor ()
      ensures Valid()
      ensures transactionQueue == [] && !stop
      ensures clientConnections == map[] && connectedPorts == {} && created == 0 && outbox == []
    {
      transactionQueue := [];
      stop := false;
      clientConnections := map[];
      connectedPorts := {};
      created := 0;
      outbox := [];
    }

    /** The producer pushes one transfer (coordinator.cpp:132-137). */
    method Enqueue(t: Transfer)
      requires Valid()
      modifies this`transactionQueue
      ensures Valid()
      ensures transactionQueue == old(transactionQueue) + [t]
    {
      transactionQueue := transactionQueue + [t];
    }

    /** The producer signals that no more work is coming (coordinator.cpp:141-144). */
    method SignalStop()
      requires Valid()
      modifies this`stop
      ensures Valid()
      ensures stop
    {
      stop := true;
    }

    /**
     * The pooled client for `port`: reused when the port is connected,
     * otherwise created for `host` and recorded.  The host plays no part in
     * the lookup.
     */
    method Connect(host: string, port: int) returns (c: Client)
      requires Valid()
      modifies this`clientConnections, this`connectedPorts, this`created
      ensures Valid()
      ensures connectedPorts == old(connectedPorts) + {port}
      ensures port in clientConnections && clientConnections[port] == c
      ensures clientConnections == Connected(old(clientConnections), host, port)
      ensures PoolExtends(old(clientConnections), clientConnections)
      ensures old(port in connectedPorts) ==>
        c == old(clientConnections[port]) && clientConnections == old(clientConnections) && created == old(created)
      ensures old(port !in connectedPorts) ==>
        c == Client(host, port) && clientConnections == old(clientConnections)[port := c] && created == old(created) + 1
    {
      if port !in connectedPorts {
        c := Client(host, port);
        clientConnections := clientConnections[port := c];
        connectedPorts := connectedPorts + {port};
        created := created + 1;
      } else {
        c := clientConnections[port];
      }
    }

    /** `requestVote` through client `c`: send the vote request, read one reply. */
    method RequestVote(c: Client, txID: string, account: string, amount: int, replies: nat -> string)
      returns (approved: bool)
      modifies this`outbox
      ensures outbox == old(outbox) + [Sent(c, VoteRequest(txID, account, amount))]
      ensures approved == VoteAccepted(replies(|old(outbox)|), txID)
    {
      outbox := outbox + [Sent(c, VoteRequest(txID, account, amount))];
      var response := replies(|outbox| - 1);
      approved := response == "VOTE-COMMIT " + txID;
    }

    /** `finalizeTransaction` through client `c`: send the decision, read and drop the ack. */
    method FinalizeTransaction(c: Client, txID: string, commit: bool, account: string, amount: int,
                               replies: nat -> string)
      modifies this`outbox
      ensures outbox == old(outbox) + [Sent(c, Finalize(txID, commit, account, amount))]
    {
      outbox := outbox + [Sent(c, Finalize(txID, commit, account, amount))];
      var ack := replies(|outbox| - 1);
    }

    /**
     * The two phases for one transfer over clients `src` and `dst`: both
     * votes, then the same decision to both (coordinator.cpp:79-92).
     */
    method RunExchange(t: Transfer, src: Client, dst: Client, replies: nat -> string)
      modifies this`outbox
      ensures outbox == old(outbox) + Exchange(t, src, dst, replies(|old(outbox)|), replies(|old(outbox)| + 1))
    {
      ghost var o := outbox;
      var sourceApproved := RequestVote(src, t.txID, t.source.account, -t.amount, replies);
      var destApproved := RequestVote(dst, t.txID, t.dest.account, t.amount, replies);
      var commit := sourceApproved && destApproved;
      if commit {
        FinalizeTransaction(src, t.txID, true, t.source.account, -t.amount, replies);
        FinalizeTransaction(dst, t.txID, true, t.dest.account, t.amount, replies);
      } else {
        FinalizeTransaction(src, t.txID, false, t.source.account, -t.amount, replies);
        FinalizeTransaction(dst, t.txID, false, t.dest.account, t.amount, replies);
      }
      assert commit == (VoteAccepted(replies(|o|), t.txID) && VoteAccepted(replies(|o| + 1), t.txID));
      assert outbox == o + [Sent(src, VoteRequest(t.txID, t.source.account, -t.amount)),
                            Sent(dst, VoteRequest(t.txID, t.dest.account, t.amount)),
                            Sent(src, Finalize(t.txID, commit, t.source.account, -t.amount)),
                            Sent(dst, Finalize(t.txID, commit, t.dest.account, t.amount))];
    }

    /** The pooled clients for both sides of `t`, source first (coordinator.cpp:56-74). */
    method ConnectBoth(t: Transfer) returns (sourceClient: Client, destClient: Client)
      requires Valid()
      modifies this`clientConnections, this`connectedPorts, this`created
      ensures Valid()
      ensures connectedPorts == old(connectedPorts) + {t.source.port, t.dest.port}
      ensures PoolExtends(old(clientConnections), clientConnections)
      ensures t.source.port in clientConnections && clientConnections[t.source.port] == sourceClient
      ensures t.dest.port in clientConnections && clientConnections[t.dest.port] == destClient
      ensures clientConnections == Connected(Connected(old(clientConnections), t.source.host, t.source.port),
                                             t.dest.host, t.dest.port)
      ensures old(t.source.port !in connectedPorts) ==> sourceClient == Client(t.source.host, t.source.port)
      ensures old(t.dest.port !in connectedPorts) && t.dest.port != t.source.port ==>
        destClient == Client(t.dest.host, t.dest.port)
    {
      ghost var pool0 := clientConnections;
      sourceClient := Connect(t.source.host, t.source.port);
      ghost var pool1 := clientConnections;
      ghost var ports1 := connectedPorts;
      destClient := Connect(t.dest.host, t.dest.port);
      PoolExtendsTransitive(pool0, pool1, clientConnections);
      AddTwo(old(connectedPorts), ports1, connectedPorts, t.source.port, t.dest.port);
    }

    /** One iteration of the worker loop on a non-empty queue (coordinator.cpp:38-92). */
    method HandleNext(replies: nat -> string)
      requires Valid() && transactionQueue != []
      modifies this`transactionQueue, this`clientConnections, this`connectedPorts, this`created,
               this`outbox
      ensures Valid()
      ensures var t := old(transactionQueue[0]);
        && transactionQueue == old(transactionQueue[1..])
        && connectedPorts == old(connectedPorts) + {t.source.port, t.dest.port}
        && PoolExtends(old(clientConnections), clientConnections)
        && clientConnections == Connected(Connected(old(clientConnections), t.source.host, t.source.port),
                                          t.dest.host, t.dest.port)
        && t.source.port in clientConnections && t.dest.port in clientConnections
        && (old(t.source.port !in connectedPorts) ==>
              clientConnections[t.source.port] == Client(t.source.host, t.source.port))
        && (old(t.dest.port !in connectedPorts) && t.dest.port != t.source.port ==>
              clientConnections[t.dest.port] == Client(t.dest.host, t.dest.port))
        && outbox == old(outbox) + Exchange(t, clientConnections[t.source.port], clientConnections[t.dest.port],
                                            replies(|old(outbox)|), replies(|old(outbox)| + 1))
    {
      var t := transactionQueue[0];
      transactionQueue := transactionQueue[1..];
      var sourceClient, destClient := ConnectBoth(t);
      RunExchange(t, sourceClient, destClient, replies);
    }

    /** `HandleNext`, seen from the loop that drains the queue: `Drained` moves on by one transfer. */
    method Advance(replies: nat -> string, ghost done: seq<Transfer>, ghost ports0: set<int>,
                   ghost pool0: map<int, Client>, ghost prior: seq<Sent>, ghost base: nat)
      requires Valid() && transactionQueue != []
      requires Drained(done, ports0, pool0, prior, base, replies, connectedPorts, clientConnections, outbox)
      modifies this`transactionQueue, this`clientConnections, this`connectedPorts, this`created, this`outbox
      ensures Valid() && transactionQueue == old(transactionQueue[1..])
      ensures Drained(done + [old(transactionQueue[0])], ports0, pool0, prior, base, replies,
                      connectedPorts, clientConnections, outbox)
    {
      ghost var ports := connectedPorts;
      ghost var pool := clientConnections;
      ghost var before := outbox;
      ghost var t := transactionQueue[0];
      HandleNext(replies);
      DrainedStep(done, ports0, pool0, prior, base, replies, ports, pool, before, t,
                  connectedPorts, clientConnections, outbox);
    }

    /**
     * `handleTransaction`: drain the queue in FIFO order.  The result is true
     * when the worker exits (stop was signalled); false stands for the worker
     * blocking on the condition variable with an empty queue, from which a
     * further Enqueue or SignalStop wakes it (the next call).
     */
    method HandleTransaction(replies: nat -> string) returns (exited: bool)
      requires Valid()
      modifies this`transactionQueue, this`clientConnections, this`connectedPorts, this`created,
               this`outbox
      ensures Valid()
      ensures transactionQueue == []
      ensures exited == stop
      ensures connectedPorts == old(connectedPorts) + Ports(old(transactionQueue))
      ensures PoolExtends(old(clientConnections), clientConnections)
      ensures clientConnections == Grow(old(clientConnections), old(transactionQueue))
      ensures Ports(old(transactionQueue)) <= clientConnections.Keys
      ensures outbox == old(outbox) + Exchanges(old(transactionQueue), clientConnections, replies, |old(outbox)|)
    {
      ghost var base := |outbox|;
      ghost var done: seq<Transfer> := [];
      AppendEmpty(transactionQueue);
      while transactionQueue != []
        invariant Valid()
        invariant old(transactionQueue) == done + transactionQueue
        invariant Drained(done, old(connectedPorts), old(clientConnections), old(outbox), base, replies,
                          connectedPorts, clientConnections, outbox)
        decreases |transactionQueue|
      {
        ghost var queue := transactionQueue;
        Advance(replies, done, old(connectedPorts), old(clientConnections), old(outbox), base);
        MoveFront(done, queue);
        done := done + [queue[0]];
      }
      AppendEmpty(done);
      exited := stop;
    }
  }
}
