/** Block sections: a body is stored only under the id that its own bytes give. */
module Sections {
  import opened Headers
  import opened ChainSpec
  import opened Intake
  import opened Codec
  import opened Pipelines

  const HEADER_TYPE_ID: nat := 101
  const BLOCK_TRANSACTIONS_TYPE_ID: nat := 102
  const AD_PROOFS_TYPE_ID: nat := 104
  const EXTENSION_TYPE_ID: nat := 108
  const TRANSACTION_TYPE_ID: nat := 2
  const BLOCK_VERSION_SENTINEL: nat := 10_000_000
  const ID_SIZE: nat := 32

  /** An extension field: a two-byte key and its value. */
  type Field = (Bytes, Bytes)

  /** Hashing and transaction parsing, all arbitrary; a transaction is a number. */
  datatype Hashes = Hashes(
    sectionId: (nat, Bytes, Bytes) -> Bytes,
    proofDigest: Bytes -> Bytes,
    extensionRoot: seq<Field> -> Bytes,
    transactionsRoot: (seq<nat>, nat) -> Bytes,
    readTx: Bytes -> Parsed<nat>)

  /** What a header commits to. */
  datatype Roots = Roots(id: Bytes, transactions: Bytes, adProofs: Bytes, extension: Bytes)

  function SectionIds(h: Hashes, r: Roots): seq<(nat, Bytes)> {
    [(BLOCK_TRANSACTIONS_TYPE_ID, h.sectionId(BLOCK_TRANSACTIONS_TYPE_ID, r.id, r.transactions)),
     (AD_PROOFS_TYPE_ID, h.sectionId(AD_PROOFS_TYPE_ID, r.id, r.adProofs)),
     (EXTENSION_TYPE_ID, h.sectionId(EXTENSION_TYPE_ID, r.id, r.extension))]
  }

  // ---- Recomputing an id ----

  function ReadField(bs: Bytes): Parsed<Field> {
    match Take(bs, 2) case None => None case Some((key, b1)) =>
    match ReadByte(b1) case None => None case Some((n, b2)) =>
    match Take(b2, n) case None => None case Some((value, b3)) =>
      Some(((key, value), b3))
  }

  /** Block version and transaction count; only the first version has no version of its own. */
  function ReadCount(bs: Bytes): Parsed<(nat, nat)> {
    match ReadVlq(bs, U32)
    case None => None
    case Some((first, rest)) => ReadVersion(first, rest)
  }

  /** The first number is the count of a version 1 block, or the version shifted up, with the count to follow. */
  function ReadVersion(first: nat, bs: Bytes): Parsed<(nat, nat)> {
    if first <= BLOCK_VERSION_SENTINEL then Some(((1, first), bs))
    else if first - BLOCK_VERSION_SENTINEL >= 256 then None
    else
      match ReadVlq(bs, U32)
      case None => None
      case Some((count, tail)) => Some(((first - BLOCK_VERSION_SENTINEL, count), tail))
  }

  function ReadTransactions(h: Hashes, bs: Bytes): Parsed<Bytes> {
    match ReadCount(bs)
    case None => None
    case Some((head, rest)) =>
      if head.1 == 0 then None
      else
        match ReadAll(h.readTx, rest, head.1)
        case None => None
        case Some((txs, tail)) => Some((h.transactionsRoot(txs, head.0), tail))
  }

  function ReadProofs(h: Hashes, bs: Bytes): Parsed<Bytes> {
    match ReadVlq(bs, U32)
    case None => None
    case Some((size, rest)) =>
      match Take(rest, size)
      case None => None
      case Some((proof, tail)) => Some((h.proofDigest(proof), tail))
  }

  function ReadExtension(h: Hashes, bs: Bytes): Parsed<Bytes> {
    match ReadVlq(bs, U16)
    case None => None
    case Some((count, rest)) =>
      match ReadAll(ReadField, rest, count)
      case None => None
      case Some((fields, tail)) => Some((h.extensionRoot(fields), tail))
  }

  function ReadDigest(h: Hashes, typeId: nat, bs: Bytes): Parsed<Bytes> {
    if typeId == BLOCK_TRANSACTIONS_TYPE_ID then ReadTransactions(h, bs)
    else if typeId == AD_PROOFS_TYPE_ID then ReadProofs(h, bs)
    else if typeId == EXTENSION_TYPE_ID then ReadExtension(h, bs)
    else None
  }

  /** The header a body names, and the id its bytes give; nothing if a byte is missing or left over. */
  function Identity(h: Hashes, typeId: nat, body: Bytes): Option<(Bytes, Bytes)> {
    match Take(body, ID_SIZE)
    case None => None
    case Some((headerId, rest)) =>
      match ReadDigest(h, typeId, rest)
      case None => None
      case Some((digest, tail)) => if tail == [] then Some((headerId, h.sectionId(typeId, headerId, digest))) else None
  }

  method TakeField(cur: Cursor) returns (r: Option<Field>)
    requires cur.Valid()
    modifies cur
    ensures cur.Valid()
    ensures r.Some? ==> ReadField(old(cur.Rest())) == Some((r.value, cur.Rest()))
    ensures r.None? ==> ReadField(old(cur.Rest())).None?
  {
    var key := cur.TakeBytes(2);
    if key.None? {
      return None;
    }
    var n := cur.TakeByte();
    if n.None? {
      return None;
    }
    var value := cur.TakeBytes(n.value);
    r := if value.None? then None else Some((key.value, value.value));
  }

  /** An extension body, field by field. */
  method TakeExtension(h: Hashes, cur: Cursor) returns (r: Option<Bytes>)
    requires cur.Valid()
    modifies cur
    ensures cur.Valid()
    ensures r.Some? ==> ReadExtension(h, old(cur.Rest())) == Some((r.value, cur.Rest()))
    ensures r.None? ==> ReadExtension(h, old(cur.Rest())).None?
  {
    var count := cur.TakeVlq(U16);
    if count.None? {
      return None;
    }
    var fields: seq<Field> := [];
    ghost var start := cur.Rest();
    for i := 0 to count.value
      invariant cur.Valid() && ReadAll(ReadField, start, i) == Some((fields, cur.Rest()))
    {
      ReadAllStep(ReadField, start, i, fields, cur.Rest());
      var f := TakeField(cur);
      if f.None? {
        ReadAllStuck(ReadField, start, i + 1, count.value);
        return None;
      }
      fields := fields + [f.value];
    }
    r := Some(h.extensionRoot(fields));
  }

  method TakeProofs(h: Hashes, cur: Cursor) returns (r: Option<Bytes>)
    requires cur.Valid()
    modifies cur
    ensures cur.Valid()
    ensures r.Some? ==> ReadProofs(h, old(cur.Rest())) == Some((r.value, cur.Rest()))
    ensures r.None? ==> ReadProofs(h, old(cur.Rest())).None?
  {
    var size := cur.TakeVlq(U32);
    if size.None? {
      return None;
    }
    var proof := cur.TakeBytes(size.value);
    r := if proof.None? then None else Some(h.proofDigest(proof.value));
  }

  /** Block version and transaction count, as `ReadCount` says. */
  method TakeCount(cur: Cursor) returns (r: Option<(nat, nat)>)
    requires cur.Valid()
    modifies cur
    ensures cur.Valid()
    ensures r.Some? ==> ReadCount(old(cur.Rest())) == Some((r.value, cur.Rest()))
    ensures r.None? ==> ReadCount(old(cur.Rest())).None?
  {
    var first := cur.TakeVlq(U32);
    if first.None? {
      return None;
    }
    r := TakeVersion(first.value, cur);
  }

  method TakeVersion(first: nat, cur: Cursor) returns (r: Option<(nat, nat)>)
    requires cur.Valid()
    modifies cur
    ensures cur.Valid()
    ensures r.Some? ==> ReadVersion(first, old(cur.Rest())) == Some((r.value, cur.Rest()))
    ensures r.None? ==> ReadVersion(first, old(cur.Rest())).None?
  {
    if first <= BLOCK_VERSION_SENTINEL {
      return Some((1, first));
    }
    var version := first - BLOCK_VERSION_SENTINEL;
    if version >= 256 {
      return None;
    }
    var count := cur.TakeVlq(U32);
    r := if count.None? then None else Some((version, count.value));
  }

  /** A body of transactions, one by one; each is read by whatever reads transactions. */
  method TakeTransactions(h: Hashes, cur: Cursor) returns (digest: Option<Bytes>, finished: bool)
    requires cur.Valid()
    modifies cur
    ensures digest.Some? <==> ReadTransactions(h, old(cur.Rest())).Some?
    ensures digest.Some? ==> ReadTransactions(h, old(cur.Rest())).value.0 == digest.value
    ensures digest.Some? ==> finished == (ReadTransactions(h, old(cur.Rest())).value.1 == [])
  {
    var head := TakeCount(cur);
    if head.None? || head.value.1 == 0 {
      return None, false;
    }
    var rest, txs := cur.buf[cur.pos..], [];
    ghost var start := rest;
    for i := 0 to head.value.1
      invariant ReadAll(h.readTx, start, i) == Some((txs, rest))
    {
      ReadAllStep(h.readTx, start, i, txs, rest);
      var tx := h.readTx(rest);
      if tx.None? {
        ReadAllStuck(h.readTx, start, i + 1, head.value.1);
        return None, false;
      }
      txs, rest := txs + [tx.value.0], tx.value.1;
    }
    digest, finished := Some(h.transactionsRoot(txs, head.value.0)), rest == [];
  }

  /** Recompute an id, reading the body to its end. */
  method SectionIdFromBody(h: Hashes, typeId: nat, body: Bytes) returns (r: Option<(Bytes, Bytes)>)
    ensures r == Identity(h, typeId, body)
  {
    var cur := new Cursor(body);
    var headerId := cur.TakeBytes(ID_SIZE);
    if headerId.None? {
      return None;
    }
    var digest, finished := TakeDigest(h, typeId, cur);
    r := if digest.None? || !finished then None else Some((headerId.value, h.sectionId(typeId, headerId.value, digest.value)));
  }

  method TakeDigest(h: Hashes, typeId: nat, cur: Cursor) returns (digest: Option<Bytes>, finished: bool)
    requires cur.Valid()
    modifies cur
    ensures digest.Some? <==> ReadDigest(h, typeId, old(cur.Rest())).Some?
    ensures digest.Some? ==> ReadDigest(h, typeId, old(cur.Rest())).value.0 == digest.value
    ensures digest.Some? ==> finished == (ReadDigest(h, typeId, old(cur.Rest())).value.1 == [])
  {
    digest, finished := None, false;
    if typeId == BLOCK_TRANSACTIONS_TYPE_ID {
      digest, finished := TakeTransactions(h, cur);
    } else if typeId == AD_PROOFS_TYPE_ID {
      digest := TakeProofs(h, cur);
      finished := cur.pos == |cur.buf|;
    } else if typeId == EXTENSION_TYPE_ID {
      digest := TakeExtension(h, cur);
      finished := cur.pos == |cur.buf|;
    }
  }

  // ---- Well-formed bodies ----

  function EncodeField(f: Field): Bytes {
    f.0 + [|f.1| % 256] + f.1
  }

  function EncodeExtension(headerId: Bytes, fields: seq<Field>): Bytes {
    headerId + (Vlq(|fields|) + WriteAll(EncodeField, fields))
  }

  function EncodeProofs(headerId: Bytes, proof: Bytes): Bytes {
    headerId + (Vlq(|proof|) + proof)
  }

  lemma FieldRoundTrip(f: Field)
    requires |f.0| == 2 && |f.1| < 256
    ensures Undoes(EncodeField, ReadField, f)
  {
    Unchanged(|f.1|, 256);
    forall rest: Bytes
      ensures ReadField(EncodeField(f) + rest) == Some((f, rest))
    {
      var all, n: Byte := EncodeField(f) + rest, |f.1|;
      assert all == f.0 + ([n] + (f.1 + rest));
      assert all[..2] == f.0 && all[2..] == [n] + (f.1 + rest);
      assert ([n] + (f.1 + rest))[1..] == f.1 + rest;
      assert (f.1 + rest)[..n] == f.1 && (f.1 + rest)[n..] == rest;
    }
  }

  /** A body made of a header's extension fields gets the id that the header's extension root gives. */
  lemma ExtensionBinds(h: Hashes, r: Roots, fields: seq<Field>)
    requires |r.id| == 32 && |fields| < U16 && r.extension == h.extensionRoot(fields)
    requires forall i {:trigger fields[i]} :: 0 <= i < |fields| ==> |fields[i].0| == 2 && |fields[i].1| < 256
    ensures Identity(h, 108, EncodeExtension(r.id, fields)) == Some((r.id, SectionIds(h, r)[2].1))
  {
    var body := WriteAll(EncodeField, fields);
    HeaderIdFirst(r.id, Vlq(|fields|) + body);
    ReadVlqWritten(|fields|, U16, body);
    forall i | 0 <= i < |fields|
      ensures Undoes(EncodeField, ReadField, fields[i])
    {
      FieldRoundTrip(fields[i]);
    }
    ReadAllWritten(EncodeField, ReadField, fields, []);
    assert body + [] == body;
  }

  lemma HeaderIdFirst(id: Bytes, rest: Bytes)
    requires |id| == ID_SIZE
    ensures Take(id + rest, ID_SIZE) == Some((id, rest))
  {
    assert (id + rest)[..ID_SIZE] == id && (id + rest)[ID_SIZE..] == rest;
  }

  lemma ProofsBind(h: Hashes, r: Roots, proof: Bytes)
    requires |r.id| == 32 && |proof| < U32 && r.adProofs == h.proofDigest(proof)
    ensures Identity(h, 104, EncodeProofs(r.id, proof)) == Some((r.id, SectionIds(h, r)[1].1))
  {
    HeaderIdFirst(r.id, Vlq(|proof|) + proof);
    ReadVlqWritten(|proof|, U32, proof);
    assert proof[..|proof|] == proof && proof[|proof|..] == [];
  }

  /** A version of its own precedes the count, except in the first version. */
  function EncodeVersion(version: nat): Bytes {
    if version == 1 then [] else Vlq(10_000_000 + version)
  }

  function EncodeTransactions(headerId: Bytes, version: nat, write: nat -> Bytes, txs: seq<nat>): Bytes {
    headerId + (EncodeVersion(version) + (Vlq(|txs|) + WriteAll(write, txs)))
  }

  lemma ReadCountWritten(version: nat, count: nat, rest: Bytes)
    requires 1 <= version < 256 && count < U32 && (version == 1 ==> count <= 10_000_000)
    ensures ReadCount(EncodeVersion(version) + (Vlq(count) + rest)) == Some(((version, count), rest))
  {
    ReadVlqWritten(count, U32, rest);
    if version == 1 {
      assert EncodeVersion(version) + (Vlq(count) + rest) == Vlq(count) + rest;
    } else {
      ReadVlqWritten(10_000_000 + version, U32, Vlq(count) + rest);
    }
  }

  /**
   A body made of a block's transactions gets the id that the header's transactions root gives,
   whatever writes transactions such that they can be read back.
   */
  lemma TransactionsBind(h: Hashes, r: Roots, version: nat, write: nat -> Bytes, txs: seq<nat>)
    requires |r.id| == 32 && r.transactions == h.transactionsRoot(txs, version)
    requires 1 <= version < 256 && 1 <= |txs| < U32 && (version == 1 ==> |txs| <= 10_000_000)
    requires forall i {:trigger txs[i]} :: 0 <= i < |txs| ==> Undoes(write, h.readTx, txs[i])
    ensures Identity(h, 102, EncodeTransactions(r.id, version, write, txs)) == Some((r.id, SectionIds(h, r)[0].1))
  {
    var body := WriteAll(write, txs);
    HeaderIdFirst(r.id, EncodeVersion(version) + (Vlq(|txs|) + body));
    ReadCountWritten(version, |txs|, body);
    ReadAllWritten(write, h.readTx, txs, []);
    assert body + [] == body;
  }

  /** A block without transactions has no id, whatever follows. */
  lemma NoTransactionsNoIdentity(h: Hashes, id: Bytes, version: nat, rest: Bytes)
    requires |id| == 32 && 1 <= version < 256
    ensures Identity(h, 102, id + (EncodeVersion(version) + (Vlq(0) + rest))).None?
  {
    HeaderIdFirst(id, EncodeVersion(version) + (Vlq(0) + rest));
    ReadCountWritten(version, 0, rest);
  }

  /** A body with bytes left over has no id, whatever its kind. */
  lemma LeftOverHasNoIdentity(h: Hashes, typeId: nat, id: Bytes, digest: Bytes, body: Bytes, more: Bytes)
    requires |id| == 32 && ReadDigest(h, typeId, body) == Some((digest, more)) && more != []
    ensures Identity(h, typeId, id + body).None?
  {
    HeaderIdFirst(id, body);
  }

  /** Transactions with anything behind them have no id. */
  lemma NothingBehindTransactions(h: Hashes, id: Bytes, version: nat, write: nat -> Bytes, txs: seq<nat>, more: Bytes)
    requires |id| == 32 && 1 <= version < 256 && 1 <= |txs| < U32 && (version == 1 ==> |txs| <= 10_000_000) && more != []
    requires forall i {:trigger txs[i]} :: 0 <= i < |txs| ==> Undoes(write, h.readTx, txs[i])
    ensures Identity(h, 102, EncodeTransactions(id, version, write, txs) + more).None?
  {
    var body := EncodeVersion(version) + (Vlq(|txs|) + WriteAll(write, txs));
    Assoc(id, body, more);
    Assoc(EncodeVersion(version), Vlq(|txs|) + WriteAll(write, txs), more);
    Assoc(Vlq(|txs|), WriteAll(write, txs), more);
    ReadCountWritten(version, |txs|, WriteAll(write, txs) + more);
    ReadAllWritten(write, h.readTx, txs, more);
    LeftOverHasNoIdentity(h, 102, id, h.transactionsRoot(txs, version), body + more, more);
  }

  /** Nor has a proof. */
  lemma NothingBehindProof(h: Hashes, id: Bytes, proof: Bytes, more: Bytes)
    requires |id| == 32 && |proof| < U32 && more != []
    ensures Identity(h, 104, EncodeProofs(id, proof) + more).None?
  {
    Assoc(id, Vlq(|proof|) + proof, more);
    Assoc(Vlq(|proof|), proof, more);
    ReadVlqWritten(|proof|, U32, proof + more);
    assert (proof + more)[..|proof|] == proof && (proof + more)[|proof|..] == more;
    LeftOverHasNoIdentity(h, 104, id, h.proofDigest(proof), Vlq(|proof|) + proof + more, more);
  }

  /** Only the three kinds of section have an id. */
  lemma OtherKindsHaveNoIdentity(h: Hashes, typeId: nat, body: Bytes)
    requires typeId != 102 && typeId != 104 && typeId != 108
    ensures Identity(h, typeId, body).None?
  {
  }

  // ---- Receiving ----

  /** Type, id it was delivered under, body. */
  datatype Delivery = Delivery(typeId: nat, id: Bytes, data: Bytes)

  type Key = (nat, Bytes)

  /** The body parses to its last byte, its bytes give `id`, and it names this header. */
  ghost predicate BoundTo(h: Hashes, typeId: nat, id: Bytes, data: Bytes, headerId: Bytes) {
    Identity(h, typeId, data) == Some((headerId, id))
  }

  lemma OnlySectionsBind(h: Hashes, typeId: nat, id: Bytes, data: Bytes, headerId: Bytes)
    requires BoundTo(h, typeId, id, data, headerId)
    ensures typeId != 101 && typeId != 2 && data != []
  {
  }

  class SectionStore {
    const h: Hashes
    const pipeline: ValidationPipeline
    /** Which header the bytes of an id stand for. */
    const naming: Bytes -> Id
    var rows: map<Key, Bytes>

    constructor (h: Hashes, pipeline: ValidationPipeline, naming: Bytes -> Id)
      ensures this.h == h && this.pipeline == pipeline && this.naming == naming
      ensures Bound() && rows == map[]
    {
      this.h, this.pipeline, this.naming, rows := h, pipeline, naming, map[];
    }

    /** On the best chain, or stored as a fork header. */
    predicate Knows(headerId: Bytes)
      reads pipeline.chain`byId, pipeline.store`primary
    {
      naming(headerId) in pipeline.chain.byId || naming(headerId) in pipeline.store.primary
    }

    /** Every row parses to its last byte, has its own bytes' id as key, and names a stored header. */
    ghost predicate Bound()
      reads this, pipeline.store`primary
    {
      forall k {:trigger rows[k]} {:trigger k in rows} :: k in rows ==>
        exists headerId :: BoundTo(h, k.0, k.1, rows[k], headerId) && naming(headerId) in pipeline.store.primary
    }

    /** The section has the id it was delivered under, and its header is on the best chain or stored. */
    ghost predicate Binds(d: Delivery)
      reads pipeline.chain`byId, pipeline.store`primary
    {
      exists headerId :: BoundTo(h, d.typeId, d.id, d.data, headerId)
                      && (naming(headerId) in pipeline.chain.byId || naming(headerId) in pipeline.store.primary)
    }

    /** Recompute the id, compare it, and look the header up. */
    method Bind(d: Delivery) returns (bound: bool)
      ensures bound <==> Binds(d)
    {
      var identity := SectionIdFromBody(h, d.typeId, d.data);
      bound := identity.Some? && identity.value.1 == d.id && Knows(identity.value.0);
      if bound {
        assert BoundTo(h, d.typeId, d.id, d.data, identity.value.0);
      }
    }

    /** Store what binds, drop the rest; nothing is reported that is not stored. */
    method BindAndStore(sections: seq<Delivery>, writes: bool) returns (stored: seq<Bytes>)
      requires Bound() && pipeline.Idle()
      modifies this`rows
      ensures Bound()
      ensures forall k :: k in old(rows) ==> k in rows
      ensures forall k :: k in rows && (k !in old(rows) || rows[k] != old(rows)[k]) ==>
                exists d :: d in sections && k == (d.typeId, d.id) && rows[k] == d.data && Binds(d)
      ensures forall id :: id in stored ==> exists d :: d in sections && d.id == id && Binds(d) && (d.typeId, d.id) in rows
      ensures writes ==> forall d :: d in sections && Binds(d) ==> d.id in stored && (d.typeId, d.id) in rows
    {
      var entries := Select(sections);
      stored := [];
      if writes {
        pipeline.IdleRows();
        stored := Put(entries);
      }
    }

    method Select(sections: seq<Delivery>) returns (entries: seq<Delivery>)
      ensures forall d :: d in entries <==> d in sections && Binds(d)
    {
      entries := [];
      for i := 0 to |sections|
        invariant forall d :: d in entries <==> d in sections[..i] && Binds(d)
      {
        var bound := Bind(sections[i]);
        if bound {
          entries := entries + [sections[i]];
        }
        assert sections[..i + 1] == sections[..i] + [sections[i]];
      }
      assert sections[..|sections|] == sections;
    }

    method Put(entries: seq<Delivery>) returns (stored: seq<Bytes>)
      requires Bound() && forall d :: d in entries ==> Binds(d)
      requires forall id :: id in pipeline.chain.byId ==> id in pipeline.store.primary
      modifies this`rows
      ensures Bound()
      ensures forall k :: k in old(rows) ==> k in rows
      ensures forall k :: k in rows && (k !in old(rows) || rows[k] != old(rows)[k]) ==>
                exists d :: d in entries && k == (d.typeId, d.id) && rows[k] == d.data
      ensures forall d :: d in entries ==> d.id in stored && (d.typeId, d.id) in rows
      ensures forall id :: id in stored ==> exists d :: d in entries && d.id == id
    {
      stored := [];
      for i := 0 to |entries|
        invariant Bound() && (forall d :: d in entries ==> Binds(d)) && forall k :: k in old(rows) ==> k in rows
        invariant forall k :: k in rows && (k !in old(rows) || rows[k] != old(rows)[k]) ==>
                    exists d :: d in entries && k == (d.typeId, d.id) && rows[k] == d.data
        invariant forall d :: d in entries[..i] ==> d.id in stored && (d.typeId, d.id) in rows
        invariant forall id :: id in stored ==> exists d :: d in entries && d.id == id
      {
        var d := entries[i];
        assert entries[..i + 1] == entries[..i] + [d];
        assert Binds(d);
        rows := rows[(d.typeId, d.id) := d.data];
        stored := stored + [d.id];
      }
      assert entries[..|entries|] == entries;
    }

    /**
     One batch: headers first, so that sections find them, then sections, then one notification.
     The headers that parse and have their proof of work go to the pipeline, lowest first. They, and
     the sections that were stored, are reported as received; and every stored section still names a
     stored header, whatever the headers did to the chain.
     */
    method ProcessBatch(batch: seq<Delivery>, parse: Bytes -> Option<Header>, writes: bool, ghost deepest: nat)
      returns (panicked: bool, accepted: seq<Id>, stored: seq<Bytes>, ghost log: BatchLog)
      requires Bound() && pipeline.Idle()
      modifies this`rows, pipeline, pipeline.requests, pipeline.store, pipeline.chain`baseHeight, pipeline.chain`byId, pipeline.chain`hs, pipeline.chain`ss
      modifies pipeline.chain.lazy`headers, pipeline.chain.lazy`scores, pipeline.chain.lazy`strayed, pipeline.chain.lazy`window, pipeline.chain.lazy`calm
      ensures !panicked ==> Bound() && pipeline.Idle()
      ensures panicked ==> rows == old(rows) && stored == []
      ensures accepted == Ids(HeadersIn(batch, parse, pipeline.chain.law.rules.powOk))
      ensures old(pipeline.buffer).Valid()
      ensures Offered(ByHeight(HeadersIn(batch, parse, pipeline.chain.law.rules.powOk)), deepest, panicked, log)
      ensures forall id :: id in stored ==> exists d :: d in batch && d.id == id && Binds(d) && (d.typeId, d.id) in rows
      ensures !panicked && writes ==> forall d :: d in batch && Binds(d) ==> d.id in stored && (d.typeId, d.id) in rows
      ensures forall k :: k in rows && (k !in old(rows) || rows[k] != old(rows)[k]) ==>
                exists d :: d in batch && k == (d.typeId, d.id) && rows[k] == d.data && Binds(d)
    {
      var headers, sections := Sort(batch, parse);
      stored := [];
      panicked, log := TakeHeaders(headers, deepest);
      accepted := Ids(headers);
      if !panicked {
        stored := StoreSections(batch, sections, writes);
      }
    }

    method StoreSections(ghost batch: seq<Delivery>, sections: seq<Delivery>, writes: bool) returns (stored: seq<Bytes>)
      requires Bound() && pipeline.Idle()
      requires forall d :: d in sections <==> d in batch && d.typeId != 101 && d.typeId != 2 && d.data != []
      modifies this`rows
      ensures Bound()
      ensures forall id :: id in stored ==> exists d :: d in batch && d.id == id && Binds(d) && (d.typeId, d.id) in rows
      ensures writes ==> forall d :: d in batch && Binds(d) ==> d.id in stored && (d.typeId, d.id) in rows
      ensures forall k :: k in rows && (k !in old(rows) || rows[k] != old(rows)[k]) ==>
                exists d :: d in batch && k == (d.typeId, d.id) && rows[k] == d.data && Binds(d)
    {
      forall d | d in batch && Binds(d)
        ensures d in sections
      {
        var headerId :| BoundTo(h, d.typeId, d.id, d.data, headerId);
        OnlySectionsBind(h, d.typeId, d.id, d.data, headerId);
      }
      stored := BindAndStore(sections, writes);
    }

    /** Headers that parse and have their proof of work, and sections, each in order of arrival. */
    method Sort(batch: seq<Delivery>, parse: Bytes -> Option<Header>) returns (headers: seq<Header>, sections: seq<Delivery>)
      ensures headers == HeadersIn(batch, parse, pipeline.chain.law.rules.powOk)
      ensures forall d :: d in sections <==> d in batch && d.typeId != 101 && d.typeId != 2 && d.data != []
    {
      headers, sections := [], [];
      for i := 0 to |batch|
        invariant headers == HeadersIn(batch[..i], parse, pipeline.chain.law.rules.powOk)
        invariant forall d :: d in sections <==> d in batch[..i] && d.typeId != 101 && d.typeId != 2 && d.data != []
      {
        var d := batch[i];
        assert batch[..i + 1] == batch[..i] + [d] && batch[..i + 1][..i] == batch[..i];
        if d.typeId == HEADER_TYPE_ID {
          if parse(d.data).Some? && pipeline.chain.law.rules.powOk(parse(d.data).value) {
            headers := headers + [parse(d.data).value];
          }
        } else if d.typeId != TRANSACTION_TYPE_ID && d.data != [] {
          sections := sections + [d];
        }
      }
      assert batch[..|batch|] == batch;
    }

    /** The pipeline did with these headers what it has to. */
    twostate predicate Offered(headers: seq<Header>, deepest: nat, panicked: bool, log: BatchLog)
      requires old(pipeline.buffer).Valid()
      reads pipeline, pipeline.chain, pipeline.chain.lazy, pipeline.store
    {
      var o, start := pipeline.Circumstances(), old(pipeline.DeskNow(None)).(forks := {});
      && (old(pipeline.Snug(headers, deepest)) ==> log.fitted)
      && (log.fitted ==> log.desk == TakenAll(o, start, headers) && (panicked <==> Asked(o, log.desk) == Some(Refused(DivisionPanic))))
      && (log.fitted && !panicked ==> pipeline.chain.hs == Final(o, log.desk))
    }

    /** The header part of a batch, lowest first; no headers, no work. */
    method TakeHeaders(headers: seq<Header>, ghost deepest: nat) returns (panicked: bool, ghost log: BatchLog)
      requires Bound() && pipeline.Idle()
      modifies pipeline, pipeline.requests, pipeline.store, pipeline.chain`baseHeight, pipeline.chain`byId, pipeline.chain`hs, pipeline.chain`ss
      modifies pipeline.chain.lazy`headers, pipeline.chain.lazy`scores, pipeline.chain.lazy`strayed, pipeline.chain.lazy`window, pipeline.chain.lazy`calm
      ensures !panicked ==> Bound() && pipeline.Idle() && old(pipeline.store.primary.Keys) <= pipeline.store.primary.Keys
      ensures old(pipeline.buffer).Valid() && Offered(ByHeight(headers), deepest, panicked, log)
    {
      pipeline.IdleOrder();
      panicked, log := false, BatchLog(pipeline.DeskNow(None).(forks := {}), 0, true);
      if headers != [] {
        var event;
        panicked, event, log := pipeline.ProcessHeaders(ByHeight(headers), deepest);
      }
    }
  }

  /** The headers of a batch that parse and have their proof of work, in order of arrival. */
  function HeadersIn(batch: seq<Delivery>, parse: Bytes -> Option<Header>, powOk: Header -> bool): seq<Header> {
    if batch == [] then []
    else
      var d := Last(batch);
      HeadersIn(batch[..|batch| - 1], parse, powOk)
      + if d.typeId == 101 && parse(d.data).Some? && powOk(parse(d.data).value) then [parse(d.data).value] else []
  }

  // ---- Lowest first ----

  ghost predicate Climbing(hs: seq<Header>) {
    forall i, j :: 0 <= i < j < |hs| ==> hs[i].height <= hs[j].height
  }

  /** Put a header behind all that are no higher. */
  function Insert(hs: seq<Header>, h: Header): (r: seq<Header>)
    ensures multiset(r) == multiset(hs) + multiset{h}
  {
    if hs == [] || Last(hs).height <= h.height then
      hs + [h]
    else
      assert hs == hs[..|hs| - 1] + [Last(hs)];
      Insert(hs[..|hs| - 1], h) + [Last(hs)]
  }

  lemma {:induction false} InsertClimbs(hs: seq<Header>, h: Header)
    requires Climbing(hs)
    ensures Climbing(Insert(hs, h))
  {
    if hs != [] && Last(hs).height > h.height {
      var init := hs[..|hs| - 1];
      InsertClimbs(init, h);
      var below := Insert(init, h);
      forall i | 0 <= i < |below|
        ensures below[i].height <= Last(hs).height
      {
        assert below[i] in multiset(below);
        assert below[i] == h || below[i] in init;
      }
    }
  }

  /** The headers of one height, in order. */
  function AtHeight(hs: seq<Header>, height: nat): seq<Header> {
    if hs == [] then []
    else AtHeight(hs[..|hs| - 1], height) + if Last(hs).height == height then [Last(hs)] else []
  }

  lemma AtHeightPush(hs: seq<Header>, h: Header, height: nat)
    ensures AtHeight(hs + [h], height) == AtHeight(hs, height) + if h.height == height then [h] else []
  {
    assert (hs + [h])[..|hs + [h]| - 1] == hs;
  }

  lemma {:induction false} InsertIsStable(hs: seq<Header>, h: Header, height: nat)
    ensures AtHeight(Insert(hs, h), height) == AtHeight(hs, height) + if h.height == height then [h] else []
  {
    AtHeightPush(hs, h, height);
    if hs != [] && Last(hs).height > h.height {
      var init := hs[..|hs| - 1];
      InsertIsStable(init, h, height);
      AtHeightPush(Insert(init, h), Last(hs), height);
    }
  }

  /** The stable sort by height: lowest first, and at each height in the order of arrival. */
  function ByHeight(hs: seq<Header>): (r: seq<Header>)
    ensures multiset(r) == multiset(hs) && Climbing(r)
    ensures forall height: nat {:trigger AtHeight(r, height)} :: AtHeight(r, height) == AtHeight(hs, height)
  {
    if hs == [] then []
    else
      var init := hs[..|hs| - 1];
      var r := Insert(ByHeight(init), Last(hs));
      assert hs == init + [Last(hs)];
      InsertClimbs(ByHeight(init), Last(hs));
      assert forall height: nat {:trigger AtHeight(r, height)} :: AtHeight(r, height) == AtHeight(hs, height) by {
        forall height: nat
          ensures AtHeight(r, height) == AtHeight(hs, height)
        {
          assert AtHeight(ByHeight(init), height) == AtHeight(init, height);
          InsertIsStable(ByHeight(init), Last(hs), height);
        }
      }
      r
  }
}
