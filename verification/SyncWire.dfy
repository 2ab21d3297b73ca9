/** The SyncInfo message on the wire: the anchors a node announces. */
module SyncWire {
  import opened Headers
  import opened Codec

  const MAX_V1_HEADER_IDS: nat := 1001
  const MAX_V2_HEADERS: nat := 50
  const MAX_V2_HEADER_SIZE: nat := 1000
  const V2_MODE_BYTE: Byte := 255
  const ID_SIZE: nat := 32

  /** How headers are written and read; both are arbitrary here. */
  datatype Serializer = Serializer(write: Header -> Bytes, read: Bytes -> Option<Header>)

  datatype SyncInfo = V1(ids: seq<Bytes>) | V2(headers: seq<Header>) | Malformed

  function EncodeHeader(s: Serializer, h: Header): Bytes {
    Vlq(|s.write(h)| % U16) + s.write(h)
  }

  /** A zero that stops readers of the old form, a mode byte, a count, and the headers. */
  function Build(s: Serializer, hs: seq<Header>): Bytes {
    Vlq(0) + [V2_MODE_BYTE, |hs| % 256] + WriteAll(h => EncodeHeader(s, h), hs)
  }

  function ReadHeader(s: Serializer, bs: Bytes): Parsed<Header> {
    match ReadVlq(bs, U16)
    case None => None
    case Some((size, rest)) =>
      if size > MAX_V2_HEADER_SIZE then None
      else
        match Take(rest, size)
        case None => None
        case Some((bytes, tail)) => if s.read(bytes).Some? then Some((s.read(bytes).value, tail)) else None
  }

  function ReadId(bs: Bytes): Parsed<Bytes> {
    Take(bs, ID_SIZE)
  }

  function Parse(s: Serializer, body: Bytes): SyncInfo {
    match ReadVlq(body, U16)
    case None => Malformed
    case Some((count, rest)) =>
      if count > MAX_V1_HEADER_IDS then Malformed
      else if count > 0 then
        match ReadAll(ReadId, rest, count)
        case None => Malformed
        case Some((ids, _)) => V1(ids)
      else
        match Take(rest, 2)
        case None => Malformed
        case Some((marks, tail)) =>
          if marks[0] != V2_MODE_BYTE || marks[1] > MAX_V2_HEADERS then Malformed
          else
            match ReadAll(bs => ReadHeader(s, bs), tail, marks[1])
            case None => Malformed
            case Some((headers, _)) => V2(headers)
  }

  ghost predicate Small(s: Serializer, h: Header) {
    |s.write(h)| <= 1000 && s.read(s.write(h)) == Some(h)
  }

  lemma HeaderRoundTrip(s: Serializer, h: Header)
    requires Small(s, h)
    ensures Undoes(x => EncodeHeader(s, x), bs => ReadHeader(s, bs), h)
  {
    var bytes := s.write(h);
    Unchanged(|bytes|, U16);
    forall rest: Bytes
      ensures ReadHeader(s, EncodeHeader(s, h) + rest) == Some((h, rest))
    {
      Assoc(Vlq(|bytes|), bytes, rest);
      ReadVlqWritten(|bytes|, U16, bytes + rest);
      assert (bytes + rest)[..|bytes|] == bytes && (bytes + rest)[|bytes|..] == rest;
    }
  }

  /** What is left to decide once the marks have been read. */
  lemma ParseBuilt(s: Serializer, hs: seq<Header>)
    requires |hs| < 256
    ensures Parse(s, Build(s, hs)) ==
            if |hs| > 50 then Malformed
            else match ReadAll(bs => ReadHeader(s, bs), WriteAll(h => EncodeHeader(s, h), hs), |hs|)
                 case None => Malformed
                 case Some((headers, _)) => V2(headers)
  {
    var body := WriteAll(h => EncodeHeader(s, h), hs);
    var marks: Bytes := [V2_MODE_BYTE, |hs|];
    Unchanged(|hs|, 256);
    Assoc(Vlq(0), marks, body);
    ReadVlqWritten(0, U16, marks + body);
    assert (marks + body)[..2] == marks && (marks + body)[2..] == body;
  }

  /** More than 50 headers are refused. */
  lemma TooManyAreRefused(s: Serializer, hs: seq<Header>)
    requires 50 < |hs| < 256
    ensures Parse(s, Build(s, hs)) == Malformed
  {
    ParseBuilt(s, hs);
  }

  /** So is a message in which a header, after smaller ones, serializes to more than 1000 bytes. */
  lemma TooLargeIsRefused(s: Serializer, hs: seq<Header>, k: nat)
    requires k < |hs| <= 50 && 1000 < |s.write(hs[k])| < U16
    requires forall i {:trigger hs[i]} :: 0 <= i < k ==> Small(s, hs[i])
    ensures Parse(s, Build(s, hs)) == Malformed
  {
    var enc, dec := h => EncodeHeader(s, h), bs => ReadHeader(s, bs);
    ParseBuilt(s, hs);
    var before, h, later := hs[..k], hs[k], WriteAll(enc, hs[k + 1..]);
    forall i | 0 <= i < k
      ensures Undoes(enc, dec, before[i])
    {
      HeaderRoundTrip(s, hs[i]);
    }
    ReadAllWritten(enc, dec, before, enc(h) + later);
    WriteAllSplit(enc, hs, k);
    Unchanged(|s.write(h)|, U16);
    Assoc(Vlq(|s.write(h)|), s.write(h), later);
    ReadVlqWritten(|s.write(h)|, U16, s.write(h) + later);
    ReadAllStep(dec, WriteAll(enc, hs), k, before, enc(h) + later);
    ReadAllStuck(dec, WriteAll(enc, hs), k + 1, |hs|);
  }

  lemma {:induction false} WriteAllSplit(enc: Header -> Bytes, hs: seq<Header>, k: nat)
    requires k < |hs|
    ensures WriteAll(enc, hs) == WriteAll(enc, hs[..k]) + (enc(hs[k]) + WriteAll(enc, hs[k + 1..]))
    decreases |hs|
  {
    var n := |hs| - 1;
    if k == n {
      assert hs[k + 1..] == [];
      assert WriteAll(enc, hs[..k]) + (enc(hs[k]) + []) == WriteAll(enc, hs[..k]) + enc(hs[k]);
    } else {
      WriteAllSplit(enc, hs[..n], k);
      assert hs[..n][..k] == hs[..k] && hs[..n][k + 1..] == hs[k + 1..n];
      assert hs[k + 1..][..n - k - 1] == hs[k + 1..n] && Last(hs[k + 1..]) == hs[n];
      Assoc(WriteAll(enc, hs[..k]), enc(hs[k]) + WriteAll(enc, hs[k + 1..n]), enc(hs[n]));
      Assoc(enc(hs[k]), WriteAll(enc, hs[k + 1..n]), enc(hs[n]));
    }
  }

  /** The old form: a count and as many ids; more than 1001 are refused. */
  lemma OldForm(s: Serializer, ids: seq<Bytes>)
    requires 0 < |ids| < U16 && forall i {:trigger ids[i]} :: 0 <= i < |ids| ==> |ids[i]| == 32
    ensures Parse(s, Vlq(|ids|) + WriteAll((id: Bytes) => id, ids)) == if |ids| <= 1001 then V1(ids) else Malformed
  {
    var enc := (id: Bytes) => id;
    var body := WriteAll(enc, ids);
    ReadVlqWritten(|ids|, U16, body);
    forall i | 0 <= i < |ids|
      ensures Undoes(enc, ReadId, ids[i])
    {
      forall rest: Bytes
        ensures ReadId(ids[i] + rest) == Some((ids[i], rest))
      {
        assert (ids[i] + rest)[..32] == ids[i] && (ids[i] + rest)[32..] == rest;
      }
    }
    ReadAllWritten(enc, ReadId, ids, []);
    assert body + [] == body;
  }

  lemma EmptyMessage(s: Serializer)
    ensures Build(s, []) == [0, 255, 0]
  {
  }

  /** Headers that serialize to at most 1000 bytes, and no more than 50 of them, arrive as they were sent. */
  lemma RoundTrip(s: Serializer, hs: seq<Header>)
    requires |hs| <= 50
    requires forall i {:trigger hs[i]} :: 0 <= i < |hs| ==> Small(s, hs[i])
    ensures Parse(s, Build(s, hs)) == V2(hs)
  {
    var enc, dec := h => EncodeHeader(s, h), bs => ReadHeader(s, bs);
    var body := WriteAll(enc, hs);
    ParseBuilt(s, hs);
    forall i | 0 <= i < |hs|
      ensures Undoes(enc, dec, hs[i])
    {
      HeaderRoundTrip(s, hs[i]);
    }
    ReadAllWritten(enc, dec, hs, []);
    assert body + [] == body;
  }
}
