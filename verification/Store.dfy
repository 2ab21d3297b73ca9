/** The persistent modifier store: block headers by id, their scores, and the BEST_CHAIN table. */
module Store {
  import opened Headers

  /** A header row of `put_batch`: the header under its own id and height, and its score. */
  datatype Entry = Entry(header: Header, score: nat)

  function Get<K, V>(m: map<K, V>, k: K): Option<V> {
    if k in m then Some(m[k]) else None
  }

  ghost predicate RowsKeyed(primary: map<Id, Header>, scores: map<Id, nat>) {
    && (forall id :: id in primary ==> IdOf(primary[id]) == id)
    && (forall id :: id in scores ==> id in primary)
  }

  /** What a loader finds by looking up the id in a slot. */
  ghost function BySlot<V>(best: map<nat, Id>, rows: map<Id, V>): map<nat, V> {
    map h | h in best && best[h] in rows :: rows[best[h]]
  }

  class ModifierStore {
    var primary: map<Id, Header>
    var scores: map<Id, nat>
    var best: map<nat, Id>

    constructor ()
      ensures primary == map[] && scores == map[] && best == map[]
    {
      primary, scores, best := map[], map[], map[];
    }

    /** Rows are keyed by the id of what they hold. */
    ghost predicate Keyed()
      reads this
    {
      RowsKeyed(primary, scores)
    }

    /** What the header loader serves: the header BEST_CHAIN names at each height. */
    ghost function HeaderView(): map<nat, Header>
      reads this
    {
      BySlot(best, primary)
    }

    /** What the score loader serves. */
    ghost function ScoreView(): map<nat, nat>
      reads this
    {
      BySlot(best, scores)
    }

    function ReadHeaderAt(h: nat): (r: Option<Header>)
      reads this
      ensures r == Get(HeaderView(), h)
    {
      if h in best && best[h] in primary then Some(primary[best[h]]) else None
    }

    function ReadScoreAt(h: nat): (r: Option<nat>)
      reads this
      ensures r == Get(ScoreView(), h)
    {
      if h in best && best[h] in scores then Some(scores[best[h]]) else None
    }

    /** Main-chain headers own their BEST_CHAIN slot; a zero height means "height unknown". */
    method PutBatch(entries: seq<Entry>)
      requires Keyed()
      modifies this
      ensures Keyed()
      ensures best == BestAfter(old(best), entries)
      ensures primary == PrimaryAfter(old(primary), entries)
      ensures scores == ScoresAfter(old(scores), entries)
    {
      for i := 0 to |entries|
        invariant Keyed()
        invariant best == BestAfter(old(best), entries[..i])
        invariant primary == PrimaryAfter(old(primary), entries[..i])
        invariant scores == ScoresAfter(old(scores), entries[..i])
      {
        var e := entries[i];
        assert entries[..i + 1] == entries[..i] + [e];
        primary := primary[IdOf(e.header) := e.header];
        scores := scores[IdOf(e.header) := e.score];
        if e.header.height > 0 {
          best := best[e.header.height := IdOf(e.header)];
        }
      }
      assert entries[..|entries|] == entries;
    }

    /** A fork header takes its BEST_CHAIN slot only if the slot is empty. */
    method PutHeader(header: Header, score: nat)
      requires Keyed()
      modifies this
      ensures Keyed()
      ensures best == if header.height in old(best) then old(best) else old(best)[header.height := IdOf(header)]
      ensures primary == old(primary)[IdOf(header) := header]
      ensures scores == old(scores)[IdOf(header) := score]
    {
      primary := primary[IdOf(header) := header];
      scores := scores[IdOf(header) := score];
      if header.height !in best {
        best := best[header.height := IdOf(header)];
      }
    }
  }

  ghost function BestAfter(best: map<nat, Id>, entries: seq<Entry>): map<nat, Id> {
    if entries == [] then best
    else
      var rest, h := BestAfter(best, entries[..|entries| - 1]), Last(entries).header;
      if h.height > 0 then rest[h.height := IdOf(h)] else rest
  }

  ghost function PrimaryAfter(primary: map<Id, Header>, entries: seq<Entry>): map<Id, Header> {
    if entries == [] then primary
    else PrimaryAfter(primary, entries[..|entries| - 1])[IdOf(Last(entries).header) := Last(entries).header]
  }

  ghost function ScoresAfter(scores: map<Id, nat>, entries: seq<Entry>): map<Id, nat> {
    if entries == [] then scores
    else ScoresAfter(scores, entries[..|entries| - 1])[IdOf(Last(entries).header) := Last(entries).score]
  }
}
