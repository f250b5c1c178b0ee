/** Horizon operation ids: a ledger, a transaction's place in it and an operation's place in that. */
module Toid {
  import opened Wrappers
  import opened Bytes
  import opened Digits

  const U32_MAX: nat := 0xFFFF_FFFF
  type U32 = n: nat | n <= U32_MAX

  const LEDGER_SHIFT: nat := 0x1_0000_0000
  const TX_SHIFT: nat := 0x1000
  const TX_ORDERS: nat := 0x10_0000
  const MAX_OPS_PER_TX: nat := 100

  const STELLAR_GENESIS_UNIX: nat := 1_443_571_200
  const LEDGER_CEILING_FLOOR: nat := 323_654_400

  datatype Toid = Toid(ledger: nat, txOrder: nat, operationIndex: nat)

  /** The highest ledger the host clock makes plausible, `now` being seconds since the epoch. */
  function PlausibleMaxLedger(now: nat): (max: U32)
    ensures LEDGER_CEILING_FLOOR <= max
  {
    var elapsed := if now < STELLAR_GENESIS_UNIX then 0 else now - STELLAR_GENESIS_UNIX;
    var byClock := if elapsed <= U32_MAX then elapsed else U32_MAX;
    if byClock < LEDGER_CEILING_FLOOR then LEDGER_CEILING_FLOOR else byClock
  }

  /** A ledger is plausible up to the floor, or when at least that many seconds have passed since genesis. */
  lemma PlausibleIff(now: nat, ledger: U32)
    ensures ledger <= PlausibleMaxLedger(now)
       <==> ledger <= 323_654_400 || 1_443_571_200 + ledger <= now
  {
  }

  /** `decode_toid`. */
  function Decode(text: string, maxLedger: U32): Option<Toid> {
    if text == "" || !AllDigits(text) || Value(text) > I64_MAX then None
    else
      var packed := Value(text);
      var ledger := packed / LEDGER_SHIFT;
      var txOrder := packed / TX_SHIFT % TX_ORDERS;
      var opOrder := packed % TX_SHIFT;
      if ledger == 0 || ledger > maxLedger || txOrder == 0 then None
      else if opOrder == 0 || opOrder > MAX_OPS_PER_TX then None
      else Some(Toid(ledger, txOrder, opOrder - 1))
  }

  /** SEP-0035 packing; operations are numbered from 1. */
  function Pack(t: Toid): nat {
    t.ledger * 0x1_0000_0000 + t.txOrder * 0x1000 + (t.operationIndex + 1)
  }

  /** The operations that can exist up to a ledger: 31 bits of ledger, 20 of order, 100 operations. */
  predicate Real(t: Toid, maxLedger: U32) {
    && 1 <= t.ledger <= maxLedger && t.ledger <= 0x7FFF_FFFF
    && 1 <= t.txOrder < 0x10_0000
    && t.operationIndex < 100
  }

  lemma PackedFits(t: Toid, maxLedger: U32)
    requires Real(t, maxLedger)
    ensures Pack(t) <= I64_MAX
    ensures Pack(t) / LEDGER_SHIFT == t.ledger
    ensures Pack(t) / TX_SHIFT % TX_ORDERS == t.txOrder
    ensures Pack(t) % TX_SHIFT == t.operationIndex + 1
  {
    assert Pack(t) / TX_SHIFT == t.ledger * TX_ORDERS + t.txOrder;
  }

  /** Decoding is the exact inverse of packing: every real operation decodes to itself and nothing else decodes. */
  lemma DecodeInverse(text: string, maxLedger: U32, t: Toid)
    ensures Decode(text, maxLedger) == Some(t)
        <==> text != "" && AllDigits(text) && Value(text) == Pack(t) && Real(t, maxLedger)
  {
    if Real(t, maxLedger) {
      PackedFits(t, maxLedger);
    }
    if text != "" && AllDigits(text) {
      var packed := Value(text);
      assert packed / LEDGER_SHIFT == packed / TX_SHIFT / TX_ORDERS;
      assert packed / TX_SHIFT == packed / TX_SHIFT / TX_ORDERS * TX_ORDERS + packed / TX_SHIFT % TX_ORDERS;
    }
  }

  lemma PrintedToidDecodes(t: Toid, maxLedger: U32)
    requires Real(t, maxLedger)
    ensures Decode(Decimal(Pack(t)), maxLedger) == Some(t)
  {
    DecimalRoundTrip(Pack(t));
    DecodeInverse(Decimal(Pack(t)), maxLedger, t);
  }

  /** Numeric order of ids is the order of (ledger, transaction, operation); equal ids are equal operations. */
  lemma OrderIsLexicographic(a: string, b: string, maxLedger: U32)
    requires Decode(a, maxLedger).Some? && Decode(b, maxLedger).Some?
    ensures var s, t := Decode(a, maxLedger).value, Decode(b, maxLedger).value;
      && (Value(a) == Value(b) <==> s == t)
      && (Value(a) < Value(b) <==>
            || s.ledger < t.ledger
            || (s.ledger == t.ledger && s.txOrder < t.txOrder)
            || (s.ledger == t.ledger && s.txOrder == t.txOrder && s.operationIndex < t.operationIndex))
  {
    DecodeInverse(a, maxLedger, Decode(a, maxLedger).value);
    DecodeInverse(b, maxLedger, Decode(b, maxLedger).value);
  }

  /** Raising the ceiling never changes a decoding that succeeded, and only lets in later ledgers. */
  lemma CeilingOnlyAdmits(text: string, lower: U32, higher: U32)
    requires lower <= higher
    ensures Decode(text, lower) ==
      if Decode(text, higher).Some? && Decode(text, higher).value.ledger <= lower then Decode(text, higher) else None
  {
  }
}
