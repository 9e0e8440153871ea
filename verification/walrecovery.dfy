/** The log's entries through their bytes: what is left of a log whose tail was torn off. */
module WalRecovery {
  import opened Bytes
  import opened WalFraming
  import Wal

  datatype Payload = Single(fields: Wal.Record) | Batch(entries: seq<Wal.Op>)

  const BATCH_KEY := "__wal_batch__"

  /** appendBatch: one operation is written as itself, several as one BATCH entry. */
  function Pack(e: Wal.Entry): Parsed<Payload>
  {
    if |e.ops| == 1 then
      match e.ops[0]
      case Put(key, payload) => Parsed(1, key, Single(payload), e.lsn)
      case Delete(key) => Parsed(2, key, Single(map[]), e.lsn)
    else Parsed(3, BATCH_KEY, Batch(e.ops), e.lsn)
  }

  function PackAll(es: seq<Wal.Entry>): (ps: seq<Parsed<Payload>>)
    ensures |ps| == |es| && forall i :: 0 <= i < |es| ==> ps[i] == Pack(es[i])
  {
    seq(|es|, i requires 0 <= i < |es| => Pack(es[i]))
  }

  /** expandWALEntry; Err where it throws. */
  function Expand(p: Parsed<Payload>): Result<Wal.Entry>
  {
    match (p.op, p.payload)
    case (1, Single(fields)) => Ok(Wal.Entry(p.lsn, [Wal.Put(p.key, fields)]))
    case (2, Single(_)) => Ok(Wal.Entry(p.lsn, [Wal.Delete(p.key)]))
    case (3, Batch(ops)) => Ok(Wal.Entry(p.lsn, ops))
    case _ => Err(Malformed)
  }

  function ExpandAll(ps: seq<Parsed<Payload>>): Result<seq<Wal.Entry>>
  {
    if ps == [] then Ok([])
    else
      match (ExpandAll(ps[..|ps| - 1]), Expand(ps[|ps| - 1]))
      case (Ok(front), Ok(e)) => Ok(front + [e])
      case (Err(e), _) => Err(e)
      case (_, Err(e)) => Err(e)
  }

  lemma {:induction false} ExpandPacked(es: seq<Wal.Entry>)
    ensures ExpandAll(PackAll(es)) == Ok(es)
  {
    if es != [] {
      var n := |es| - 1;
      ExpandPacked(es[..n]);
      assert PackAll(es)[..n] == PackAll(es[..n]);
      assert Expand(Pack(es[n])) == Ok(es[n]) by {
        if |es[n].ops| == 1 {
          assert es[n].ops == [es[n].ops[0]];
        }
      }
      assert es == es[..n] + [es[n]];
    }
  }

  /** Torn anywhere, a log still opens, and to the state after its first n batches, where n counts those
      wholly in front of the tear: a batch is kept entirely or not at all. */
  lemma TornLog(rt: Runtime<Payload>, es: seq<Wal.Entry>, clock: nat -> nat, k: nat)
    requires RuntimeOk(rt) && AllFit(rt, PackAll(es), clock)
    requires k <= 5 + |Frames(rt, PackAll(es), clock)|
    ensures var torn := (Header() + Frames(rt, PackAll(es), clock))[..k];
            var n := Whole(rt, PackAll(es), clock, k - 5);
            var left := ExpandAll(ParseV2(rt, torn));
            && left == Ok(es[..n])
            && Wal.Plain(Wal.StateOf(left.value)) == Wal.Fold(map[], Wal.Flat(es[..n]))
  {
    hide Frames, ParseV2, ExpandAll, RuntimeOk, AllFit, Whole, Header;
    var n := Whole(rt, PackAll(es), clock, k - 5);
    PrefixParses(rt, PackAll(es), clock, k);
    assert PackAll(es)[..n] == PackAll(es[..n]);
    ExpandPacked(es[..n]);
    Wal.StateAppended([], es[..n]);
    assert [] + es[..n] == es[..n] && Wal.Plain(Wal.StateOf([])) == map[];
  }
}
