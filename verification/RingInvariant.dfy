/**
 Outstanding operations: each connection that is not parked has exactly one, queued, in the kernel or posted,
 which names it by index and generation and is the one its state expects; the accept and the eventfd read
 have one each while they are armed. Kept by every way an operation moves and a connection comes, changes
 or goes; so the submission queue never fills up.
 */
module RingInvariant {
  import opened Bytes
  import opened Pipeline
  import opened Replies
  import opened Session
  import opened Ledger
  import opened Counting
  import opened Worker

  // ---------------------------------------------------------------- tokens

  lemma PackUnpack(g: nat, i: nat)
    requires g < U32 && i < U32
    ensures UnpackToken(PackToken(g, i)) == (g, i) && PackToken(g, i) <= ACCEPT_TOKEN
  {
  }

  /** A slab index is far too small for a connection token to be a reserved one, whatever the generation. */
  lemma NeverReserved(g: nat, i: nat)
    requires g < U32 && i < SLOT_COUNT
    ensures PackToken(g, i) < EVENTFD_TOKEN
  {
  }

  /** The generation counter may wrap: tokens of distinct live indices still differ. */
  lemma DistinctIndices(g: nat, h: nat, i: nat, j: nat)
    requires i < U32 && j < U32 && PackToken(g, i) == PackToken(h, j)
    ensures i == j && g == h
  {
  }

  // ---------------------------------------------------------------- obligations of the ring

  function TokenAt(conns: map<nat, Entry>, i: nat): nat
    requires i in conns
  {
    PackToken(conns[i].generation, i)
  }

  /** The token names a live connection, of the generation it was made for. */
  predicate Names(conns: map<nat, Entry>, token: nat) {
    token % U32 in conns && token == TokenAt(conns, token % U32)
  }

  function ConnAt(conns: map<nat, Entry>, i: nat): Conn
    requires i in conns
  {
    conns[i].session.conn
  }

  /** A queued or running operation is the one its connection expects. */
  predicate OpFits(conns: map<nat, Entry>, s: Sqe) {
    match s.op
    case AcceptMulti => s.token == ACCEPT_TOKEN
    case EventfdRead => s.token == EVENTFD_TOKEN
    case ConnIo(io) => Names(conns, s.token) && ExpectedIo(ConnAt(conns, s.token % U32)) == Some(io)
  }

  /** A posted completion is one the kernel may give to the operation its connection expects. */
  predicate CqeFits(conns: map<nat, Entry>, c: Cqe) {
    if c.token == ACCEPT_TOKEN then c.more ==> c.result >= 0
    else if c.token == EVENTFD_TOKEN then !c.more
    else
      && !c.more && Names(conns, c.token)
      && var io := ExpectedIo(ConnAt(conns, c.token % U32));
         io.Some? && KernelAnswers(io.value, c.result, c.data)
  }

  /** A completion with MORE set leaves its operation running: it is a notice, not the end of it. */
  const NOTICE: nat := ACCEPT_TOKEN + 1

  function SqeTokens(s: seq<Sqe>): seq<nat> {
    seq(|s|, i requires 0 <= i < |s| => s[i].token)
  }

  function CqeToken(c: Cqe): nat { if c.more then NOTICE else c.token }

  function CqeTokens(s: seq<Cqe>): seq<nat> {
    seq(|s|, i requires 0 <= i < |s| => CqeToken(s[i]))
  }

  /** Which of the two standing operations are outstanding, and which connections have none. */
  datatype Duty = Duty(listening: bool, watching: bool, idle: set<nat>)

  /** How many operations are outstanding under a token, wherever they are. */
  function Outstanding(r: Ring, token: nat): nat {
    multiset(SqeTokens(r.sq))[token] + multiset(SqeTokens(r.kernel))[token] + multiset(CqeTokens(r.cq))[token]
  }

  /** Registry keys and generations are in range. */
  ghost predicate Keyed(conns: map<nat, Entry>) {
    forall i :: i in conns ==> i < SLOT_COUNT && conns[i].generation < U32
  }

  /** Exactly one outstanding operation each, except for the connections in `idle`. */
  ghost predicate RingHolds(conns: map<nat, Entry>, r: Ring, d: Duty) {
    && Keyed(conns)
    && (forall k :: 0 <= k < |r.sq| ==> OpFits(conns, r.sq[k]))
    && (forall k :: 0 <= k < |r.kernel| ==> OpFits(conns, r.kernel[k]))
    && (forall k :: 0 <= k < |r.cq| ==> CqeFits(conns, r.cq[k]))
    && Outstanding(r, ACCEPT_TOKEN) == (if d.listening then 1 else 0)
    && Outstanding(r, EVENTFD_TOKEN) == (if d.watching then 1 else 0)
    && (forall i :: i in conns ==> Outstanding(r, TokenAt(conns, i)) == (if i in d.idle then 0 else 1))
  }

  // ---------------------------------------------------------------- how counts move

  lemma SqePush(s: seq<Sqe>, e: Sqe)
    ensures multiset(SqeTokens(s + [e])) == multiset(SqeTokens(s)) + multiset{e.token}
  {
    assert SqeTokens(s + [e]) == SqeTokens(s) + [e.token];
  }

  lemma SqeTake(s: seq<Sqe>, k: nat)
    requires k < |s|
    ensures multiset(SqeTokens(s)) == multiset(SqeTokens(RemoveAt(s, k))) + multiset{s[k].token}
  {
    RemoveCounts(SqeTokens(s), k);
    assert SqeTokens(RemoveAt(s, k)) == RemoveAt(SqeTokens(s), k);
  }

  lemma CqePush(s: seq<Cqe>, c: Cqe)
    ensures multiset(CqeTokens(s + [c])) == multiset(CqeTokens(s)) + multiset{CqeToken(c)}
  {
    assert CqeTokens(s + [c]) == CqeTokens(s) + [CqeToken(c)];
  }

  lemma CqeTake(s: seq<Cqe>, k: nat)
    requires k < |s|
    ensures multiset(CqeTokens(s)) == multiset(CqeTokens(RemoveAt(s, k))) + multiset{CqeToken(s[k])}
  {
    RemoveCounts(CqeTokens(s), k);
    assert CqeTokens(RemoveAt(s, k)) == RemoveAt(CqeTokens(s), k);
  }

  /** A token nobody owes an operation for appears nowhere. */
  lemma NoneOutstanding(r: Ring, token: nat)
    requires token < NOTICE && Outstanding(r, token) == 0
    ensures forall k :: 0 <= k < |r.sq| ==> r.sq[k].token != token
    ensures forall k :: 0 <= k < |r.kernel| ==> r.kernel[k].token != token
    ensures forall k :: 0 <= k < |r.cq| ==> r.cq[k].token != token || r.cq[k].more
  {
    forall k | 0 <= k < |r.sq| ensures r.sq[k].token != token {
      assert SqeTokens(r.sq)[k] in multiset(SqeTokens(r.sq));
    }
    forall k | 0 <= k < |r.kernel| ensures r.kernel[k].token != token {
      assert SqeTokens(r.kernel)[k] in multiset(SqeTokens(r.kernel));
    }
    forall k | 0 <= k < |r.cq| ensures r.cq[k].token != token || r.cq[k].more {
      assert CqeTokens(r.cq)[k] in multiset(CqeTokens(r.cq));
    }
  }

  /** A posted completion of a connection is final and names it; so is the eventfd's. */
  lemma CqeMeans(conns: map<nat, Entry>, c: Cqe)
    requires CqeFits(conns, c)
    ensures c.token != ACCEPT_TOKEN ==> !c.more
    ensures c.token != ACCEPT_TOKEN && c.token != EVENTFD_TOKEN ==> Names(conns, c.token)
  {
  }

  // ---------------------------------------------------------------- steps of the ring alone

  lemma RingEnter(conns: map<nat, Entry>, r: Ring, d: Duty, k: nat)
    requires RingHolds(conns, r, d) && k < |r.sq|
    ensures RingHolds(conns, Ring(RemoveAt(r.sq, k), r.kernel + [r.sq[k]], r.cq), d)
  {
    hide OpFits, CqeFits, SqeTokens, CqeTokens;
    SqeTake(r.sq, k);
    SqePush(r.kernel, r.sq[k]);
  }

  lemma RingFinish(conns: map<nat, Entry>, r: Ring, d: Duty, k: nat, c: Cqe)
    requires RingHolds(conns, r, d)
    requires k < |r.kernel| && c.token == r.kernel[k].token && CqeFits(conns, c)
    ensures RingHolds(conns, Finish(r, k, c), d)
  {
    hide OpFits, CqeFits, SqeTokens, CqeTokens, PackToken;
    TokensApart(conns);
    SqeTake(r.kernel, k);
    CqePush(r.cq, c);
  }

  /** The accept's completion is taken; without MORE nobody listens any more. */
  lemma RingTakeAccept(conns: map<nat, Entry>, r: Ring, d: Duty, k: nat)
    requires RingHolds(conns, r, d) && d.listening && k < |r.cq| && r.cq[k].token == ACCEPT_TOKEN
    ensures RingHolds(conns, r.(cq := RemoveAt(r.cq, k)), d.(listening := r.cq[k].more))
  {
    hide OpFits, CqeFits, PackToken, SqeTokens, CqeTokens;
    TokensApart(conns);
    CqeTake(r.cq, k);
  }

  /** The eventfd completion is taken. */
  lemma RingTakeEventfd(conns: map<nat, Entry>, r: Ring, d: Duty, k: nat)
    requires RingHolds(conns, r, d) && d.watching && k < |r.cq| && r.cq[k].token == EVENTFD_TOKEN
    ensures RingHolds(conns, r.(cq := RemoveAt(r.cq, k)), d.(watching := false))
  {
    hide OpFits, CqeFits, PackToken, SqeTokens, CqeTokens;
    TokensApart(conns);
    CqeTake(r.cq, k);
    CqeMeans(conns, r.cq[k]);
  }

  /** A standing operation that is not outstanding is armed. */
  lemma RingArm(conns: map<nat, Entry>, r: Ring, d: Duty, s: Sqe)
    requires RingHolds(conns, r, d)
    requires (s == Sqe(ACCEPT_TOKEN, AcceptMulti) && !d.listening)
             || (s == Sqe(EVENTFD_TOKEN, EventfdRead) && !d.watching)
    ensures RingHolds(conns, r.(sq := r.sq + [s]),
              if s.op.AcceptMulti? then d.(listening := true) else d.(watching := true))
  {
    hide CqeFits, PackToken, SqeTokens, CqeTokens, ExpectedIo;
    TokensApart(conns);
    SqePush(r.sq, s);
  }

  // ---------------------------------------------------------------- steps of one connection

  /** Live connections have distinct tokens, none of them reserved, each naming its own index. */
  lemma TokensApart(conns: map<nat, Entry>)
    requires Keyed(conns)
    ensures forall i :: i in conns ==> TokenAt(conns, i) % U32 == i && TokenAt(conns, i) < EVENTFD_TOKEN
    ensures forall i, j :: i in conns && j in conns && i != j ==> TokenAt(conns, i) != TokenAt(conns, j)
  {
    forall i | i in conns ensures TokenAt(conns, i) % U32 == i && TokenAt(conns, i) < EVENTFD_TOKEN {
      PackUnpack(conns[i].generation, i);
      NeverReserved(conns[i].generation, i);
    }
  }

  /** Its operation's completion is taken: the connection owes nothing. */
  lemma RingTake(conns: map<nat, Entry>, r: Ring, d: Duty, k: nat)
    requires RingHolds(conns, r, d)
    requires k < |r.cq| && r.cq[k].token != ACCEPT_TOKEN && r.cq[k].token != EVENTFD_TOKEN
    ensures var i := r.cq[k].token % U32;
            && i in conns && i !in d.idle && r.cq[k].token == TokenAt(conns, i)
            && RingHolds(conns, r.(cq := RemoveAt(r.cq, k)), d.(idle := d.idle + {i}))
  {
    hide OpFits, CqeFits, PackToken, CqeTokens, SqeTokens;
    TokensApart(conns);
    CqeTake(r.cq, k);
    CqeMeans(conns, r.cq[k]);
  }

  function Without(conns: map<nat, Entry>, i: nat): map<nat, Entry> {
    map j | j in conns && j != i :: conns[j]
  }

  /** Nothing that is outstanding looks at a connection that owes nothing. */
  lemma OthersKeepFitting(conns: map<nat, Entry>, i: nat, e: Entry)
    requires Keyed(conns) && i in conns && e.generation == conns[i].generation
    ensures forall s: Sqe :: OpFits(conns, s) && s.token != TokenAt(conns, i) ==>
              OpFits(conns[i := e], s) && OpFits(Without(conns, i), s)
    ensures forall c: Cqe :: CqeFits(conns, c) && (c.token != TokenAt(conns, i) || c.more)
                         ==> CqeFits(conns[i := e], c) && CqeFits(Without(conns, i), c)
  {
    hide PackToken, KernelAnswers, ExpectedIo;
    TokensApart(conns);
  }

  /** A connection that owes nothing may change its state. */
  lemma RingChange(conns: map<nat, Entry>, r: Ring, d: Duty, i: nat, e: Entry)
    requires RingHolds(conns, r, d)
    requires i in conns && i in d.idle && e.generation == conns[i].generation
    ensures RingHolds(conns[i := e], r, d)
  {
    hide OpFits, CqeFits, PackToken, Outstanding;
    TokensApart(conns);
    NoneOutstanding(r, TokenAt(conns, i));
    OthersKeepFitting(conns, i, e);
  }

  /** A connection that owes nothing may leave. */
  lemma RingForget(conns: map<nat, Entry>, r: Ring, d: Duty, i: nat)
    requires RingHolds(conns, r, d) && i in conns && i in d.idle
    ensures RingHolds(Without(conns, i), r, d.(idle := d.idle - {i}))
  {
    hide OpFits, CqeFits, PackToken, Outstanding;
    TokensApart(conns);
    NoneOutstanding(r, TokenAt(conns, i));
    OthersKeepFitting(conns, i, conns[i]);
  }

  /** A connection that owes nothing submits the operation its state expects. */
  lemma RingPush(conns: map<nat, Entry>, r: Ring, d: Duty, i: nat, io: Io)
    requires RingHolds(conns, r, d)
    requires i in conns && i in d.idle && ExpectedIo(ConnAt(conns, i)) == Some(io)
    ensures RingHolds(conns, r.(sq := r.sq + [Sqe(TokenAt(conns, i), ConnIo(io))]), d.(idle := d.idle - {i}))
  {
    var s := Sqe(TokenAt(conns, i), ConnIo(io));
    TokensApart(conns);
    SqePush(r.sq, s);
    assert OpFits(conns, s);
    hide OpFits, CqeFits, ExpectedIo, PackToken, SqeTokens, CqeTokens;
  }

  lemma AllKeepFitting(conns: map<nat, Entry>, i: nat, e: Entry)
    requires Keyed(conns) && i !in conns && i < SLOT_COUNT && e.generation < U32
    ensures forall s: Sqe :: OpFits(conns, s) ==> OpFits(conns[i := e], s) && s.token != TokenAt(conns[i := e], i)
    ensures forall c: Cqe :: CqeFits(conns, c) ==> CqeFits(conns[i := e], c) && CqeToken(c) != TokenAt(conns[i := e], i)
  {
    hide PackToken, KernelAnswers, ExpectedIo;
    TokensApart(conns[i := e]);
  }

  /** A new connection starts out owing nothing. */
  lemma RingAdd(conns: map<nat, Entry>, r: Ring, d: Duty, i: nat, e: Entry)
    requires RingHolds(conns, r, d)
    requires i !in conns && i < SLOT_COUNT && e.generation < U32
    ensures RingHolds(conns[i := e], r, d.(idle := d.idle + {i}))
  {
    hide OpFits, CqeFits, PackToken, SqeTokens, CqeTokens;
    AllKeepFitting(conns, i, e);
    NewToken(r, TokenAt(conns[i := e], i));
  }

  lemma NewToken(r: Ring, token: nat)
    requires forall k :: 0 <= k < |r.sq| ==> r.sq[k].token != token
    requires forall k :: 0 <= k < |r.kernel| ==> r.kernel[k].token != token
    requires forall k :: 0 <= k < |r.cq| ==> CqeToken(r.cq[k]) != token
    ensures Outstanding(r, token) == 0
  {
    assert token !in SqeTokens(r.sq) && token !in SqeTokens(r.kernel) && token !in CqeTokens(r.cq);
  }

  // ---------------------------------------------------------------- capacity

  /** Two standing operations and one per connection: the ring is never asked for more. */
  lemma OpsBounded(conns: map<nat, Entry>, r: Ring, d: Duty)
    requires RingHolds(conns, r, d)
    ensures |r.sq| + |r.kernel| <= |conns| + 2
  {
    var owners := Owners(conns);
    var tokens := SqeTokens(r.sq) + SqeTokens(r.kernel);
    OwnersCount(conns);
    forall t | t in tokens
      ensures multiset(tokens)[t] <= 1 && (t == ACCEPT_TOKEN || t == EVENTFD_TOKEN || t in owners)
    {
      SqeOwner(conns, r, d, t);
    }
    TokenLengths(r);
    hide RingHolds, SqeTokens, Owners;
    CountedFits(tokens, owners, ACCEPT_TOKEN, EVENTFD_TOKEN);
  }

  function Owners(conns: map<nat, Entry>): set<nat> {
    set i | i in conns :: TokenAt(conns, i)
  }

  lemma OwnersCount(conns: map<nat, Entry>)
    requires Keyed(conns)
    ensures |Owners(conns)| == |conns|
  {
    hide PackToken;
    TokensApart(conns);
    var f := map i | i in conns :: TokenAt(conns, i);
    assert f.Keys == conns.Keys;
    ImageSize(f, Owners(conns));
  }

  lemma TokenLengths(r: Ring)
    ensures |SqeTokens(r.sq)| == |r.sq| && |SqeTokens(r.kernel)| == |r.kernel|
  {
  }

  lemma SqeOwner(conns: map<nat, Entry>, r: Ring, d: Duty, t: nat)
    requires RingHolds(conns, r, d) && t in SqeTokens(r.sq) + SqeTokens(r.kernel)
    ensures t == ACCEPT_TOKEN || t == EVENTFD_TOKEN || t in Owners(conns)
    ensures multiset(SqeTokens(r.sq) + SqeTokens(r.kernel))[t] <= 1
  {
    hide PackToken, ExpectedIo, OpFits, CqeFits;
    TokensApart(conns);
    var n := |r.sq|;
    var k :| 0 <= k < n + |r.kernel| && (SqeTokens(r.sq) + SqeTokens(r.kernel))[k] == t;
    OpOwner(conns, if k < n then r.sq[k] else r.kernel[k - n]);
    assert Outstanding(r, t) <= 1;
  }

  lemma OpOwner(conns: map<nat, Entry>, s: Sqe)
    requires OpFits(conns, s)
    ensures s.token == ACCEPT_TOKEN || s.token == EVENTFD_TOKEN || s.token in Owners(conns)
  {
  }
}
