/** process/background.go: transactions sent around a ring of active users until the
    epoch's round is over. Positions are those of the list of active users. */
module TxRing {
  datatype Transfer = Transfer(sender: nat, recipient: nat)

  function Sent(log: seq<Transfer>, i: nat): nat {
    if log == [] then 0 else Sent(log[..|log| - 1], i) + (if log[|log| - 1].sender == i then 1 else 0)
  }

  function Received(log: seq<Transfer>, i: nat): nat {
    if log == [] then 0 else Received(log[..|log| - 1], i) + (if log[|log| - 1].recipient == i then 1 else 0)
  }

  function Apart(a: int, b: int): nat {
    if a < b then b - a else a - b
  }

  /** The first m positions have sent once more than the q times of the others, and
      every position received what its predecessor sent. */
  ghost predicate Fair(log: seq<Transfer>, n: nat, q: nat, m: nat) {
    && (forall i :: 0 <= i < n ==> Sent(log, i) == q + (if i < m then 1 else 0))
    && (forall i :: 0 < i < n ==> Received(log, i) == Sent(log, i - 1))
    && (n > 0 ==> Received(log, 0) == Sent(log, n - 1))
  }

  lemma OneTransfer(log: seq<Transfer>, n: nat, q: nat, m: nat)
    requires Fair(log, n, q, m) && m < n
    ensures Fair(log + [Transfer(m, if m + 1 == n then 0 else m + 1)], n, q, m + 1)
  {
    var after := log + [Transfer(m, if m + 1 == n then 0 else m + 1)];
    assert after[..|log|] == log;
    forall i: nat
      ensures Sent(after, i) == Sent(log, i) + (if i == m then 1 else 0)
      ensures Received(after, i) == Received(log, i) + (if i == (if m + 1 == n then 0 else m + 1) then 1 else 0)
    {
    }
  }

  lemma FairAtStart(log: seq<Transfer>, n: nat)
    requires log == []
    ensures Fair(log, n, 0, 0)
  {
  }

  lemma NextRound(log: seq<Transfer>, n: nat, q: nat)
    requires Fair(log, n, q, n)
    ensures Fair(log, n, q + 1, 0)
  {
  }

  lemma FairIsBalanced(log: seq<Transfer>, n: nat, q: nat, m: nat)
    requires Fair(log, n, q, m) && m <= n
    ensures forall i, j :: 0 <= i < n && 0 <= j < n ==> Apart(Sent(log, i), Sent(log, j)) <= 1
    ensures forall i :: 0 <= i < n ==> Apart(Sent(log, i), Received(log, i)) <= 1
  {
  }

  /** The position behind i. */
  function Next(n: nat, i: nat): nat {
    if i + 1 == n then 0 else i + 1
  }

  /** Every transfer goes to the next position, begins where the one before went, and the
      first begins at position 0. */
  predicate AroundRing(log: seq<Transfer>, n: nat) {
    && (log != [] ==> log[0].sender == 0)
    && (forall k :: 0 <= k < |log| ==> log[k].sender < n && log[k].recipient == Next(n, log[k].sender))
    && forall k :: 0 < k < |log| ==> log[k].sender == log[k - 1].recipient
  }

  function Turn(log: seq<Transfer>): nat {
    if log == [] then 0 else log[|log| - 1].recipient
  }

  lemma RingGoesOn(log: seq<Transfer>, n: nat)
    requires AroundRing(log, n) && n >= 2
    ensures Turn(log) < n
    ensures AroundRing(log + [Transfer(Turn(log), Next(n, Turn(log)))], n)
  {
  }

  lemma RingStarts(log: seq<Transfer>, n: nat)
    requires log == []
    ensures AroundRing(log, n) && Turn(log) == 0
  {
  }

  lemma RingTurns(log: seq<Transfer>, n: nat, i: nat)
    ensures Next(n, i) == (if i + 1 == n then 0 else i + 1)
    ensures Turn(log + [Transfer(i, Next(n, i))]) == Next(n, i)
  {
  }

  lemma NobodyToItself(log: seq<Transfer>, n: nat)
    requires AroundRing(log, n) && n >= 2
    ensures forall t :: t in log ==> t.sender < n && t.recipient < n && t.sender != t.recipient
  {
  }

  /** iterations is how often the loop found the round not yet over. Each position in turn
      sends to the next one, the last to the first, so nobody ever sends to itself; any two positions differ by at most one in what they sent, and each
      position by at most one between what it sent and what it was sent. */
  method GenerateTxs(n: nat, iterations: nat) returns (log: seq<Transfer>)
    ensures |log| == if n < 2 then 0 else iterations
    ensures AroundRing(log, n)
    ensures forall t :: t in log ==> t.sender < n && t.recipient < n && t.sender != t.recipient
    ensures forall i, j :: 0 <= i < n && 0 <= j < n ==> Apart(Sent(log, i), Sent(log, j)) <= 1
    ensures forall i :: 0 <= i < n ==> Apart(Sent(log, i), Received(log, i)) <= 1
  {
    log := [];
    if n < 2 {
      return;
    }
    hide Fair, Sent, Received, Apart, AroundRing, Turn, Next;
    RingStarts(log, n);
    FairAtStart(log, n);
    var senderIdx := -1;
    ghost var q := 0;
    for k := 0 to iterations
      invariant -1 <= senderIdx < n && |log| == k
      invariant AroundRing(log, n) && Turn(log) == (if senderIdx + 1 == n then 0 else senderIdx + 1)
      invariant Fair(log, n, q, senderIdx + 1)
    {
      senderIdx := senderIdx + 1;
      if senderIdx == n {
        NextRound(log, n, q);
        senderIdx := 0;
        q := q + 1;
      }
      var recipientIdx := senderIdx + 1;
      if recipientIdx == n {
        recipientIdx := 0;
      }
      OneTransfer(log, n, q, senderIdx);
      RingGoesOn(log, n);
      RingTurns(log, n, senderIdx);
      log := log + [Transfer(senderIdx, recipientIdx)];
    }
    FairIsBalanced(log, n, q, senderIdx + 1);
    NobodyToItself(log, n);
  }
}
