/** Sending one transaction through a node that may drop a connection, answer that it
    already has the transaction, that the nonce is spent, or anything else. */
module EvmSend {
  import opened Options

  const RPC_ATTEMPTS: nat := 4

  /** What the node is asked. A signed transaction is named by its nonce. */
  datatype Request = NonceOf | Build | Send(tx: nat) | ReceiptOf(tx: nat) | BlockOf | Registry
    | KnownReceipt(tx: nat) | KnownTx(tx: nat)

  /** `Dropped` is a lost connection; `Refused` any other error. A receipt answers its
      status, the registry the status of the record. */
  datatype Reply = Value(n: nat) | Dropped | NonceUsed | AlreadyHeld | NotFound | Refused

  /** Where a sent transaction stands; `Unread` is an error instead of an answer. */
  datatype State = IsMined | IsReverted | IsPending | IsUnknown | Unread

  datatype Event = Asked(request: Request, reply: Reply) | Signed(tx: nat)

  /** Which record a call is meant to write: any for confirm and amend, a terminated one
      for terminate. */
  datatype Operation = Confirm | Amend | Terminate

  const ABSENT: nat := 0
  const TERMINATED: nat := 3

  predicate Wanted(op: Operation, status: nat) {
    if op == Terminate then status == TERMINATED else status != ABSENT
  }

  datatype Outcome =
    | Mined(tx: nat)
    | OnRegistry(status: nat)
    | Following(tx: nat)
    | Reverted(tx: nat)
    | NonceTaken
    | Failed(request: Request)
    | FeeTooHigh
  {
    predicate IsAnchor() {
      Mined? || OnRegistry?
    }
  }

  predicate IsSend(e: Event) {
    e.Asked? && e.request.Send?
  }

  /** The node accepted the transaction or already had it. */
  predicate IsAck(e: Event) {
    IsSend(e) && (e.reply.Value? || e.reply == AlreadyHeld)
  }

  predicate NonceRefused(e: Event, tx: nat) {
    e == Asked(Send(tx), NonceUsed)
  }

  /** A read of the registry that did not find the record. */
  predicate FoundNothing(e: Event, op: Operation) {
    e.Asked? && e.request == Registry && !(e.reply.Value? && Wanted(op, e.reply.n))
  }

  ghost predicate LastIs(t: seq<Event>, e: Event) {
    t != [] && t[|t| - 1] == e
  }

  ghost predicate EndsAbsent(t: seq<Event>, op: Operation) {
    t != [] && FoundNothing(t[|t| - 1], op)
  }

  ghost predicate Extends(t: seq<Event>, t': seq<Event>) {
    |t| <= |t'| && t'[..|t|] == t
  }

  /** Nothing is signed or broadcast from index `b` on. */
  ghost predicate Quiet(t: seq<Event>, b: nat) {
    forall i :: b <= i < |t| ==> !t[i].Signed? && !IsSend(t[i])
  }

  // ----- what a call never does, whatever the node answers -----

  /** From index `b` on, at most two transactions are signed, `first` and then `second`. */
  ghost predicate SignsAre(t: seq<Event>, b: nat, first: Option<nat>, second: Option<nat>) {
    && (second.Some? ==> first.Some? && first.value < second.value)
    && (first.Some? ==> b <= first.value < |t|) && (second.Some? ==> second.value < |t|)
    && forall i :: b <= i < |t| ==> (t[i].Signed? <==> Some(i) == first || Some(i) == second)
  }

  /** Between two indexes: the nonce was refused, then the registry held no record. */
  ghost predicate RefusedThenAbsent(t: seq<Event>, op: Operation, i: nat, j: nat) {
    i < j <= |t| && exists a, c :: i < a < c < j && t[i].Signed? && NonceRefused(t[a], t[i].tx) && FoundNothing(t[c], op)
  }

  /** Nothing is signed or broadcast after the node has acknowledged a transaction. */
  ghost predicate NothingAfterAck(t: seq<Event>, b: nat) {
    forall i, j :: b <= i < j < |t| && IsAck(t[i]) ==> !t[j].Signed? && !IsSend(t[j])
  }

  /** What is broadcast was signed by this call. */
  ghost predicate SendsAreSigned(t: seq<Event>, b: nat) {
    forall i :: b <= i < |t| && IsSend(t[i]) ==> exists s :: b <= s < i && t[s] == Signed(t[i].request.tx)
  }

  /** What a call does with its transactions, from index `b` on. */
  ghost predicate Careful(t: seq<Event>, b: nat, op: Operation, first: Option<nat>, second: Option<nat>) {
    && SignsAre(t, b, first, second) && NothingAfterAck(t, b) && SendsAreSigned(t, b)
    && (second.Some? ==> RefusedThenAbsent(t, op, first.value, second.value))
  }

  /** Nothing is acknowledged yet, and any transaction signed was refused for its nonce. */
  ghost predicate Free(t: seq<Event>, b: nat, op: Operation, first: Option<nat>) {
    && b <= |t| && SignsAre(t, b, first, None) && SendsAreSigned(t, b)
    && (forall i :: b <= i < |t| ==> !IsAck(t[i]))
    && (if first.Some? then RefusedThenAbsent(t, op, first.value, |t|) else |t| == b)
  }

  /** What one attempt appends. */
  ghost predicate Attempt(t: seq<Event>, t': seq<Event>, s: Option<nat>) {
    Extends(t, t') && SignsAre(t', |t|, s, None) && NothingAfterAck(t', |t|) && SendsAreSigned(t', |t|)
  }

  ghost predicate NoAck(t: seq<Event>, b: nat) {
    forall i :: b <= i < |t| ==> !IsAck(t[i])
  }

  /** Steps that neither sign nor broadcast stay careful. */
  lemma QuietKeeps(t: seq<Event>, t': seq<Event>, b: nat, op: Operation, first: Option<nat>, second: Option<nat>)
    requires Extends(t, t') && Quiet(t', |t|) && b <= |t| && Careful(t, b, op, first, second)
    ensures Careful(t', b, op, first, second)
  {
  }

  /** A further attempt, while free to make one. */
  lemma AttemptKeeps(t: seq<Event>, t': seq<Event>, b: nat, op: Operation, first: Option<nat>, s: Option<nat>)
    requires Free(t, b, op, first) && Attempt(t, t', s)
    ensures if first.Some? then Careful(t', b, op, first, s) else Careful(t', b, op, s, None)
    ensures NoAck(t', |t|) ==> NoAck(t', b)
  {
  }

  /** After a refused nonce and a read that found nothing, another attempt is free. */
  lemma RefusedIsFree(t: seq<Event>, t': seq<Event>, b: nat, op: Operation, s: nat)
    requires Extends(t, t') && |t'| == |t| + 1 && b <= |t| && Careful(t, b, op, Some(s), None) && NoAck(t, b)
    requires s < |t| - 1 && NonceRefused(t[|t| - 1], t[s].tx) && FoundNothing(t'[|t|], op)
    ensures Free(t', b, op, Some(s))
  {
  }

  ghost predicate Acked(t: seq<Event>, b: nat, tx: nat) {
    exists i :: b <= i < |t| && IsAck(t[i]) && t[i].request.tx == tx
  }

  lemma StillAcked(t: seq<Event>, t': seq<Event>, b: nat, tx: nat)
    requires Extends(t, t') && b <= |t|
    ensures Acked(t, b, tx) ==> Acked(t', b, tx)
  {
    if Acked(t, b, tx) {
      var i :| b <= i < |t| && IsAck(t[i]) && t[i].request.tx == tx;
      assert t'[i] == t[i];
    }
  }

  ghost predicate Succeeded(t: seq<Event>, b: nat, tx: nat) {
    exists i :: b <= i < |t| && t[i] == Asked(ReceiptOf(tx), Value(1))
  }

  /** The last two events: the request with this reply, and a read of the registry that did
      not find the record. */
  ghost predicate AbsentAfter(t: seq<Event>, b: nat, op: Operation, request: Request, reply: Reply) {
    |t| >= b + 2 && t[|t| - 2] == Asked(request, reply) && EndsAbsent(t, op)
  }

  /** The registry is read last, and only after a refused nonce or a receipt that is missing
      or says reverted. */
  ghost predicate ReadBack(t: seq<Event>, b: nat) {
    |t| >= b + 2 && t[|t| - 2].Asked? &&
    var e := t[|t| - 2];
    (e.request.Send? && e.reply == NonceUsed) || (e.request.ReceiptOf? && e.reply != Value(1))
  }

  /** The node was asked for the receipt last, gave none, and the registry held no record. */
  ghost predicate NoReceipt(t: seq<Event>, b: nat, op: Operation, tx: nat) {
    Acked(t, b, tx) && exists reply: Reply :: !reply.Value? && AbsentAfter(t, b, op, ReceiptOf(tx), reply)
  }

  /** A reply that ends the call with an error. */
  predicate GivesUp(request: Request, reply: Reply) {
    !reply.Value? && (request.Send? ==> reply != AlreadyHeld && reply != NonceUsed)
  }

  /** The node answered this about the receipt of a known transaction. */
  ghost predicate Reported(t: seq<Event>, b: nat, tx: nat, reply: Reply) {
    exists i :: b <= i < |t| && t[i] == Asked(KnownReceipt(tx), reply)
  }

  /** The last reply was an error: to the receipt, to the block of a transaction that
      succeeded, or to the transaction when there was no receipt. */
  ghost predicate UnreadBecause(t: seq<Event>, b: nat, tx: nat) {
    exists request: Request, reply: Reply ::
      && LastIs(t, Asked(request, reply)) && !reply.Value?
      && ((request == KnownReceipt(tx) && reply != NotFound)
          || (request == BlockOf && Reported(t, b, tx, Value(1)))
          || (request == KnownTx(tx) && reply != NotFound && Reported(t, b, tx, NotFound)))
  }

  ghost predicate EndsGivenUp(t: seq<Event>, b: nat, request: Request) {
    |t| > b && exists reply: Reply :: GivesUp(request, reply) && LastIs(t, Asked(request, reply))
  }

  /** What the trace shows for an outcome: the receipt and block of a mined transaction, the
      record the registry answered, the acknowledgement of the transaction being followed, the
      second refused nonce, or the reply that ended the call. */
  ghost predicate Explained(t: seq<Event>, b: nat, op: Operation, wait: bool, second: Option<nat>, r: Outcome) {
    match r
    case Mined(tx) => Acked(t, b, tx) && Succeeded(t, b, tx) && exists n :: LastIs(t, Asked(BlockOf, Value(n)))
    case OnRegistry(status) => Wanted(op, status) && LastIs(t, Asked(Registry, Value(status))) && ReadBack(t, b)
    case Following(tx) => wait && NoReceipt(t, b, op, tx)
    case Reverted(tx) => Acked(t, b, tx) && exists n :: n != 1 && AbsentAfter(t, b, op, ReceiptOf(tx), Value(n))
    case NonceTaken =>
      && second.Some? && b <= second.value < |t| && t[second.value].Signed?
      && AbsentAfter(t, b, op, Send(t[second.value].tx), NonceUsed)
    case Failed(ReceiptOf(tx)) => !wait && NoReceipt(t, b, op, tx)
    case Failed(BlockOf) => EndsGivenUp(t, b, BlockOf) && exists tx :: Acked(t, b, tx) && Succeeded(t, b, tx)
    case Failed(request) => (request.NonceOf? || request.Build? || request.Send?) && EndsGivenUp(t, b, request)
    case FeeTooHigh => |t| == b
  }

  type Node = (nat, bool, Request) -> Reply

  /** Every reply is what a node answered at some earlier time. */
  ghost predicate Heard(t: seq<Event>, node: Node, clock: nat) {
    forall i :: 0 <= i < |t| && t[i].Asked? ==> exists c, via :: 0 <= c < clock && node(c, via, t[i].request) == t[i].reply
  }

  class EvmBackend {
    const node: Node
    const fallback: bool
    var switched: bool
    var clock: nat
    ghost var trace: seq<Event>

    ghost predicate Valid()
      reads this
    {
      Heard(trace, node, clock)
    }

    constructor (answers: Node, hasFallback: bool)
      ensures node == answers && fallback == hasFallback && !switched && clock == 0 && trace == [] && Valid()
    {
      node, fallback, switched, clock, trace := answers, hasFallback, false, 0, [];
    }

    method Ask(request: Request) returns (reply: Reply)
      requires Valid()
      modifies this`clock, this`trace
      ensures Valid()
      ensures reply == node(old(clock), switched, request)
      ensures clock == old(clock) + 1 && trace == old(trace) + [Asked(request, reply)]
    {
      reply := node(clock, switched, request);
      HeardOne(trace, node, clock, switched, request);
      clock, trace := clock + 1, trace + [Asked(request, reply)];
    }

    method UseFallback()
      modifies this`switched
      ensures switched == (old(switched) || fallback)
    {
      if fallback && !switched { switched := true; }
    }

    /** Whether attempt `k` (from 0) of a retried call goes to the fallback node. */
    function OnFallback(before: bool, k: nat): bool {
      before || (fallback && k >= 2)
    }

    /** Up to four tries while the connection drops, the third and fourth on the fallback
        node when there is one. */
    method Retry(request: Request) returns (reply: Reply)
      requires Valid()
      modifies this`clock, this`switched, this`trace
      ensures Valid()
      ensures |old(trace)| < |trace| <= |old(trace)| + 4 && Extends(old(trace), trace)
      ensures forall i :: |old(trace)| <= i < |trace| ==>
        trace[i] == Asked(request, node(old(clock) + (i - |old(trace)|), old(switched) || (fallback && i >= |old(trace)| + 2), request))
      ensures forall i :: |old(trace)| <= i < |trace| - 1 ==> trace[i] == Asked(request, Dropped)
      ensures LastIs(trace, Asked(request, reply)) && (reply == Dropped ==> |trace| == |old(trace)| + 4)
      ensures clock == old(clock) + (|trace| - |old(trace)|) && switched == OnFallback(old(switched), |trace| - |old(trace)| - 1)
    {
      hide Heard;
      ghost var base, start, before := |trace|, clock, switched;
      var attempt: nat := 1;
      while true
        invariant 1 <= attempt <= RPC_ATTEMPTS && clock == start + attempt - 1 && Valid()
        invariant |trace| == base + attempt - 1 && Extends(old(trace), trace)
        invariant switched == OnFallback(before, attempt - 1)
        invariant forall i :: base <= i < |trace| ==>
          trace[i] == Asked(request, node(start + (i - base), OnFallback(before, i - base), request)) && trace[i] == Asked(request, Dropped)
        decreases RPC_ATTEMPTS - attempt
      {
        reply := Ask(request);
        if reply != Dropped || attempt == RPC_ATTEMPTS { return; }
        if attempt >= 2 { UseFallback(); }
        attempt := attempt + 1;
      }
    }

    /** The record, when the registry already holds what this call was meant to write. */
    method Recorded(op: Operation) returns (done: Option<nat>)
      requires Valid()
      modifies this`clock, this`trace
      ensures Valid()
      ensures exists reply :: trace == old(trace) + [Asked(Registry, reply)]
      ensures done.Some? ==> LastIs(trace, Asked(Registry, Value(done.value))) && Wanted(op, done.value)
      ensures done.None? ==> EndsAbsent(trace, op)
    {
      hide Heard;
      var reply := Ask(Registry);
      done := if reply.Value? && Wanted(op, reply.n) then Some(reply.n) else None;
    }

    /** Takes a nonce and builds; nothing is signed or broadcast yet. */
    method Prepare() returns (nonce: Option<nat>, failed: Request)
      requires Valid()
      modifies this`clock, this`switched, this`trace
      ensures Valid()
      ensures Extends(old(trace), trace) && Quiet(trace, |old(trace)|) && |trace| > |old(trace)|
      ensures nonce.None? ==> (failed.NonceOf? || failed.Build?) && EndsGivenUp(trace, |old(trace)|, failed)
    {
      hide Heard;
      var n := Retry(NonceOf);
      if !n.Value? { return None, NonceOf; }
      ghost var mid := trace;
      var built := Retry(Build);
      assert forall i :: 0 <= i < |mid| ==> trace[i] == mid[i];
      nonce, failed := if built.Value? then Some(n.n) else None, Build;
    }

    /** Takes a nonce, signs and broadcasts; `s` is where it signed. */
    method SignAndSend() returns (ack: Option<nat>, used: bool, failed: Request, ghost s: Option<nat>)
      requires Valid()
      modifies this`clock, this`switched, this`trace
      ensures Valid()
      ensures Attempt(old(trace), trace, s) && |trace| > |old(trace)|
      ensures ack.Some? ==> |trace| > |old(trace)| && trace != [] && IsAck(trace[|trace| - 1]) && trace[|trace| - 1].request.tx == ack.value
      ensures ack.None? ==> NoAck(trace, |old(trace)|)
      ensures ack.None? && !used ==> (failed.NonceOf? || failed.Build? || failed.Send?) && EndsGivenUp(trace, |old(trace)|, failed)
      ensures used ==> ack.None? && s.Some? && |old(trace)| <= s.value < |trace| - 1 && trace[s.value].Signed?
      ensures used ==> NonceRefused(trace[|trace| - 1], trace[s.value].tx)
    {
      hide Heard;
      ack, used, s := None, false, None;
      var nonce;
      nonce, failed := Prepare();
      if nonce.None? { return; }
      var tx := nonce.value;
      s := Some(|trace|);
      HeardSigned(trace, node, clock, tx);
      trace := trace + [Signed(tx)];
      ghost var signed := trace;
      var sent := Retry(Send(tx));
      failed := Send(tx);
      assert forall i :: 0 <= i < |signed| ==> trace[i] == signed[i];
      assert trace[s.value] == Signed(tx);
      if sent.Value? || sent == AlreadyHeld {
        ack := Some(tx);
      } else {
        used := sent == NonceUsed;
      }
    }

    /** Waits for the receipt of an acknowledged transaction; the registry decides when
        there is none or it says the transaction reverted. */
    method Follow(op: Operation, tx: nat, wait: bool, ghost b: nat, ghost second: Option<nat>) returns (r: Outcome)
      requires Valid()
      modifies this`clock, this`switched, this`trace
      ensures Valid()
      ensures Extends(old(trace), trace) && Quiet(trace, |old(trace)|)
      ensures Acked(old(trace), b, tx) && b <= |old(trace)| ==> Explained(trace, b, op, wait, second, r)
      ensures !r.NonceTaken? && !r.FeeTooHigh?
    {
      hide Heard;
      ghost var before := trace;
      var receipt := Retry(ReceiptOf(tx));
      ghost var mid := trace;
      if receipt == Value(1) {
        var block := Retry(BlockOf);
        assert forall i :: 0 <= i < |mid| ==> trace[i] == mid[i];
        assert trace[|mid| - 1] == Asked(ReceiptOf(tx), Value(1));
        if b <= |before| { StillAcked(before, trace, b, tx); }
        return if block.Value? then Mined(tx) else Failed(BlockOf);
      }
      var done := Recorded(op);
      assert forall i :: 0 <= i < |mid| ==> trace[i] == mid[i];
      if done.Some? { return OnRegistry(done.value); }
      if b <= |before| { StillAcked(before, trace, b, tx); }
      assert b <= |before| ==> AbsentAfter(trace, b, op, ReceiptOf(tx), receipt);
      if receipt.Value? { return Reverted(tx); }
      r := if wait then Following(tx) else Failed(ReceiptOf(tx));
    }

    /** Where a transaction stands, by its receipt first and the transaction second. */
    method TxState(tx: nat) returns (state: State)
      requires Valid()
      modifies this`clock, this`switched, this`trace
      ensures Valid() && Extends(old(trace), trace) && Quiet(trace, |old(trace)|)
      ensures state == IsMined ==> Reported(trace, |old(trace)|, tx, Value(1)) && exists n :: LastIs(trace, Asked(BlockOf, Value(n)))
      ensures state == IsReverted ==> exists n :: n != 1 && LastIs(trace, Asked(KnownReceipt(tx), Value(n)))
      ensures state == IsPending || state == IsUnknown ==> Reported(trace, |old(trace)|, tx, NotFound)
      ensures state == IsPending ==> exists n :: LastIs(trace, Asked(KnownTx(tx), Value(n)))
      ensures state == IsUnknown ==> LastIs(trace, Asked(KnownTx(tx), NotFound))
      ensures state == Unread ==> UnreadBecause(trace, |old(trace)|, tx)
    {
      hide Heard;
      var receipt := Retry(KnownReceipt(tx));
      ghost var mid := trace;
      if receipt.Value? && receipt.n != 1 { return IsReverted; }
      if !receipt.Value? && receipt != NotFound { return Unread; }
      if receipt == Value(1) {
        var block := Retry(BlockOf);
        assert trace[|mid| - 1] == mid[|mid| - 1] && forall i :: 0 <= i < |mid| ==> trace[i] == mid[i];
        return if block.Value? then IsMined else Unread;
      }
      var known := Retry(KnownTx(tx));
      assert trace[|mid| - 1] == mid[|mid| - 1] && forall i :: 0 <= i < |mid| ==> trace[i] == mid[i];
      state := if known.Value? then IsPending else if known == NotFound then IsUnknown else Unread;
    }

    /** One attempt; no outcome means the nonce was refused, the registry held no record and
        this was the first attempt. */
    method TryOnce(op: Operation, wait: bool, attempt: nat, ghost b: nat, ghost first: Option<nat>)
      returns (r: Option<Outcome>, ghost s: Option<nat>)
      requires Valid()
      requires Free(trace, b, op, first) && 1 <= attempt <= 2 && (attempt == 1 <==> first.None?)
      modifies this`clock, this`switched, this`trace
      ensures Valid()
      ensures Extends(old(trace), trace)
      ensures r.None? ==> attempt == 1 && s.Some? && Free(trace, b, op, s)
      ensures r.Some? ==> Careful(trace, b, op, if first.Some? then first else s, if first.Some? then s else None)
      ensures r.Some? ==> Explained(trace, b, op, wait, if first.Some? then s else None, r.value) && !r.value.FeeTooHigh?
    {
      hide Heard, SignsAre, NothingAfterAck, SendsAreSigned, RefusedThenAbsent, Careful, Quiet, NoAck;
      ghost var before := trace;
      var ack, used, failed;
      ack, used, failed, s := SignAndSend();
      AttemptKeeps(before, trace, b, op, first, s);
      ghost var sent := trace;
      ghost var one, two := if first.Some? then first else s, if first.Some? then s else None;
      assert b <= |before|;
      hide Free;
      if used {
        var done := Recorded(op);
        assert trace[|sent| - 1] == sent[|sent| - 1] && trace[s.value] == sent[s.value];
        ReadIsQuiet(sent, trace);
        QuietKeeps(sent, trace, b, op, one, two);
        if done.Some? { return Some(OnRegistry(done.value)), s; }
        if attempt == 2 { return Some(NonceTaken), s; }
        RefusedIsFree(sent, trace, b, op, s.value);
        return None, s;
      }
      if ack.None? { return Some(Failed(failed)), s; }
      assert Acked(sent, b, ack.value);
      var outcome := Follow(op, ack.value, wait, b, two);
      QuietKeeps(sent, trace, b, op, one, two);
      r := Some(outcome);
    }

    /** Signs at most two transactions, the second only after the node refused the first
        one's nonce and the registry held no record. */
    method SendLocked(op: Operation, feesRefused: bool, wait: bool) returns (r: Outcome, ghost first: Option<nat>, ghost second: Option<nat>)
      requires Valid()
      modifies this`clock, this`switched, this`trace
      ensures Valid()
      ensures Extends(old(trace), trace) && Careful(trace, |old(trace)|, op, first, second)
      ensures Explained(trace, |old(trace)|, op, wait, second, r) && (r.FeeTooHigh? <==> feesRefused)
    {
      first, second := None, None;
      if feesRefused { return FeeTooHigh, None, None; }
      hide Heard, SignsAre, NothingAfterAck, SendsAreSigned, RefusedThenAbsent, Careful, Free, NoAck, Quiet, Explained;
      NothingYet(trace, op);
      r := NonceTaken;
      var attempt := 1;
      while attempt <= 2
        invariant 1 <= attempt <= 2 && Extends(old(trace), trace) && second.None? && Valid()
        invariant Free(trace, |old(trace)|, op, first) && (attempt == 1 <==> first.None?)
        decreases 3 - attempt
      {
        var outcome, s := TryOnce(op, wait, attempt, |old(trace)|, first);
        if attempt == 1 { first := s; } else { second := s; }
        if outcome.Some? { return outcome.value, first, second; }
        attempt := attempt + 1;
      }
    }
  }

  lemma HeardOne(t: seq<Event>, node: Node, clock: nat, via: bool, request: Request)
    requires Heard(t, node, clock)
    ensures Heard(t + [Asked(request, node(clock, via, request))], node, clock + 1)
  {
  }

  lemma HeardSigned(t: seq<Event>, node: Node, clock: nat, tx: nat)
    requires Heard(t, node, clock)
    ensures Heard(t + [Signed(tx)], node, clock)
  {
  }

  // ----- anchors are records -----

  /** Both nodes tell the truth about the registry and about this call's own transactions,
      and what the registry holds it keeps: `holds(c)` says the wanted record is there at
      time `c`. A transaction that succeeds has written it. */
  ghost predicate Truthful(node: Node, op: Operation, ours: set<nat>, holds: nat -> bool) {
    && (forall c, via :: node(c, via, Registry).Value? && Wanted(op, node(c, via, Registry).n) ==> holds(c))
    && (forall c, via, tx :: tx in ours && node(c, via, ReceiptOf(tx)) == Value(1) ==> holds(c))
    && (forall c: nat, d: nat :: c <= d && holds(c) ==> holds(d))
  }

  function SignedFrom(t: seq<Event>, b: nat): set<nat> {
    set i | b <= i < |t| && t[i].Signed? :: t[i].tx
  }

  /** An anchor is returned only when the registry holds the record; for terminate, with
      the status Terminated. */
  lemma AnchorIsRecorded(t: seq<Event>, b: nat, op: Operation, wait: bool, second: Option<nat>, r: Outcome, node: Node, clock: nat, holds: nat -> bool)
    requires Explained(t, b, op, wait, second, r) && SendsAreSigned(t, b) && Heard(t, node, clock)
    requires Truthful(node, op, SignedFrom(t, b), holds) && r.IsAnchor()
    ensures holds(clock)
  {
  }

  /** A record that is still active ends no terminate by the registry: only the status
      Terminated, 3, does. For confirm and amend any status but none, 0, does. */
  lemma ActiveRecordIsNoTermination(t: seq<Event>, b: nat, op: Operation, wait: bool, second: Option<nat>, status: nat)
    requires Explained(t, b, op, wait, second, OnRegistry(status))
    ensures op == Terminate ==> status == 3
    ensures status != 0 && LastIs(t, Asked(Registry, Value(status)))
  {
  }

  /** A read of the registry finds nothing wanted when it fails, when a terminate reads any
      status but Terminated, 3, and when anything else reads that there is no record, 0. */
  lemma NothingWantedIff(t: seq<Event>, op: Operation, reply: Reply)
    ensures EndsAbsent(t + [Asked(Registry, reply)], op)
      <==> !reply.Value? || (if op == Terminate then reply.n != 3 else reply.n == 0)
  {
  }

  lemma NothingYet(t: seq<Event>, op: Operation)
    ensures Free(t, |t|, op, None)
  {
  }

  lemma ReadIsQuiet(t: seq<Event>, t': seq<Event>)
    requires exists reply :: t' == t + [Asked(Registry, reply)]
    ensures Extends(t, t') && Quiet(t', |t|) && |t'| == |t| + 1
  {
  }
}
