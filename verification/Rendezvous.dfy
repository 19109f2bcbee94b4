/** What the two programs on a connection are meant to observe: the k-th calls of the two ends
    meet, and what each returns depends on those two calls alone. */
module Rendezvous {
  import opened CopyPlan
  import opened Handshake

  /** A pair of calls that moves data. */
  predicate Moves(t: Call, r: Call) {
    t.Transfer? && r.Transfer? && 0 < t.size <= r.size
  }

  function PairPhases(t: Call, r: Call): nat {
    if Moves(t, r) then 2 else 1
  }

  /** The number of phases of the k-th calls; one for a call that has no partner. */
  function Phases(cfg: Config, k: nat): nat {
    if k < |cfg.txCalls| && k < |cfg.rxCalls| then PairPhases(cfg.txCalls[k], cfg.rxCalls[k]) else 1
  }

  /** Phases used up by the calls before the k-th. */
  function Base(cfg: Config, k: nat): nat {
    if k == 0 then 0 else Base(cfg, k - 1) + Phases(cfg, k - 1)
  }

  function ExpectedError(x: Side, mine: Call, theirs: Call): int {
    if mine.Sync? then
      if theirs.Sync? || theirs.size == 0 then 0 else X_E_SYNC_TRANSFER_MISMATCH
    else if mine.size == 0 then X_E_INVALID_TRANSFER_SIZE
    else if theirs.Sync? || theirs.size == 0 then X_E_SYNC_TRANSFER_MISMATCH
    else if (if x.Tx? then mine.size > theirs.size else theirs.size > mine.size) then
      X_E_SEND_TOO_BIG_FOR_RECEIVE_BUFFER
    else 0
  }

  /** The size sent on both ends of a pair that moves data, X_SUCCESS from a sync that met a sync
      (or a transfer of nothing), -1 in every other case. */
  function ExpectedReturn(x: Side, mine: Call, theirs: Call): int {
    if ExpectedError(x, mine, theirs) != 0 then -1
    else if mine.Sync? then X_SUCCESS
    else if x.Tx? then mine.size else theirs.size
  }

  /** The receive buffer afterwards: the message, followed by what was there before. */
  function Received(t: Call, r: Call, message: seq<Byte>, before: seq<Byte>): seq<Byte>
    requires Moves(t, r) ==> |message| == t.size && |before| == r.size
  {
    if Moves(t, r) then message + before[t.size..] else before
  }

  /** Transfer buffers lie inside memory, and no send buffer overlaps a receive buffer. */
  predicate WellFormed(cfg: Config, memory: nat) {
    && cfg.modulus >= 2
    && BuffersFit(cfg, Tx, memory) && BuffersFit(cfg, Rx, memory)
    && (forall i, j {:trigger cfg.txCalls[i], cfg.rxCalls[j]} ::
          0 <= i < |cfg.txCalls| && 0 <= j < |cfg.rxCalls| ==> Apart(cfg, cfg.txCalls[i], cfg.rxCalls[j]))
  }

  predicate BuffersFit(cfg: Config, x: Side, memory: nat) {
    forall i :: 0 <= i < |Calls(cfg, x)| ==> Buffer(cfg, x, Calls(cfg, x)[i]) + Size(Calls(cfg, x)[i]) <= memory
  }

  predicate Apart(cfg: Config, t: Call, r: Call) {
    Disjoint(Buffer(cfg, Tx, t), Size(t), Buffer(cfg, Rx, r), Size(r))
  }

  /** All pairs of calls move data: any number of matched sends and receives. */
  predicate AllMove(cfg: Config) {
    forall k :: 0 <= k < |cfg.txCalls| && k < |cfg.rxCalls| ==> Moves(cfg.txCalls[k], cfg.rxCalls[k])
  }

  lemma {:induction false} BaseMono(cfg: Config, j: nat, k: nat)
    requires j < k
    ensures Base(cfg, j) < Base(cfg, j + 1) <= Base(cfg, k)
    ensures Base(cfg, j + 1) == Base(cfg, j) + Phases(cfg, j)
    decreases k
  {
    if j + 1 < k { BaseMono(cfg, j, k - 1); }
  }

  /** A phase count lies inside one call only. */
  lemma BaseUnique(cfg: Config, j: nat, k: nat, n: nat)
    requires Base(cfg, j) <= n < Base(cfg, j + 1) && Base(cfg, k) <= n < Base(cfg, k + 1)
    ensures j == k
  {
    if j < k { BaseMono(cfg, j, k); }
    if k < j { BaseMono(cfg, k, j); }
  }
}
