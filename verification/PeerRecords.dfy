/** The on-disk form of a peer record. */
module PeerRecords {
  import opened Headers
  import opened Codec

  type Feature = (Byte, Bytes)

  /** Names are kept as the bytes of their UTF-8 text. */
  datatype PeerRecord = PeerRecord(
    lastSeen: nat, lastHandshake: nat, agent: Bytes, node: Bytes,
    version: (Byte, Byte, Byte), features: seq<Feature>)

  // ---- Writing ----

  /** Anything past 65535 bytes is cut off. */
  function Clipped(b: Bytes): Bytes {
    if |b| < U16 then b else b[..U16 - 1]
  }

  function EncodeBytes(b: Bytes): Bytes {
    Le(|Clipped(b)|, 2) + Clipped(b)
  }

  function EncodeFeature(f: Feature): Bytes {
    [f.0] + EncodeBytes(f.1)
  }

  /** At most 255 features are kept. */
  function Kept(fs: seq<Feature>): seq<Feature> {
    if |fs| <= 255 then fs else fs[..255]
  }

  /** A row as it was written before the handshake time was added. */
  function EncodeLegacy(r: PeerRecord): Bytes {
    EncodeHead(r) + WriteAll(EncodeFeature, Kept(r.features))
  }

  function EncodeHead(r: PeerRecord): Bytes {
    Le(r.lastSeen, 8) + EncodeBytes(r.agent) + EncodeBytes(r.node)
    + [r.version.0, r.version.1, r.version.2, |Kept(r.features)|]
  }

  function Encode(r: PeerRecord): Bytes {
    EncodeLegacy(r) + Le(r.lastHandshake, 8)
  }

  method EncodeRecord(r: PeerRecord) returns (buf: Bytes)
    ensures buf == Encode(r)
  {
    var kept := Kept(r.features);
    buf := Le(r.lastSeen, 8) + EncodeBytes(r.agent) + EncodeBytes(r.node);
    buf := buf + [r.version.0, r.version.1, r.version.2, |kept|];
    for i := 0 to |kept|
      invariant buf == EncodeHead(r) + WriteAll(EncodeFeature, kept[..i])
    {
      WriteAllPush(EncodeFeature, kept, i);
      Assoc(EncodeHead(r), WriteAll(EncodeFeature, kept[..i]), EncodeFeature(kept[i]));
      buf := buf + EncodeFeature(kept[i]);
    }
    assert kept[..|kept|] == kept;
    buf := buf + Le(r.lastHandshake, 8);
  }

  // ---- Reading ----

  function ReadBytes(bs: Bytes): Parsed<Bytes> {
    match ReadLe(bs, 2)
    case None => None
    case Some((n, rest)) => Take(rest, n)
  }

  function ReadStr(utf8: Bytes -> bool, bs: Bytes): Parsed<Bytes> {
    match ReadBytes(bs)
    case None => None
    case Some((s, rest)) => if utf8(s) then Some((s, rest)) else None
  }

  function ReadFeature(bs: Bytes): Parsed<Feature> {
    match ReadByte(bs)
    case None => None
    case Some((id, rest)) =>
      match ReadBytes(rest)
      case None => None
      case Some((body, tail)) => Some(((id, body), tail))
  }

  function ReadVersion(bs: Bytes): Parsed<(Byte, Byte, Byte)> {
    match Take(bs, 3)
    case None => None
    case Some((v, rest)) => Some(((v[0], v[1], v[2]), rest))
  }

  /** Everything up to the handshake time. */
  function ReadLegacy(utf8: Bytes -> bool, bs: Bytes): Parsed<PeerRecord> {
    match ReadNames(utf8, bs) case None => None case Some((names, b3)) =>
    match ReadVersion(b3) case None => None case Some((version, b4)) =>
    match ReadByte(b4) case None => None case Some((count, b5)) =>
    match ReadAll(ReadFeature, b5, count) case None => None case Some((features, b6)) =>
      Some((PeerRecord(names.0, 0, names.1, names.2, version, features), b6))
  }

  /** When the peer was last seen, and its two names. */
  function ReadNames(utf8: Bytes -> bool, bs: Bytes): Parsed<(nat, Bytes, Bytes)> {
    match ReadLe(bs, 8) case None => None case Some((lastSeen, b1)) =>
    match ReadStr(utf8, b1) case None => None case Some((agent, b2)) =>
    match ReadStr(utf8, b2) case None => None case Some((node, b3)) =>
      Some(((lastSeen, agent, node), b3))
  }

  /** A row that ends before the handshake time reads as never having shaken hands. */
  function Decode(utf8: Bytes -> bool, bs: Bytes): Option<PeerRecord> {
    match ReadLegacy(utf8, bs)
    case None => None
    case Some((r, rest)) =>
      if rest == [] then Some(r)
      else
        match ReadLe(rest, 8)
        case None => None
        case Some((t, _)) => Some(r.(lastHandshake := t))
  }

  method TakeStr(utf8: Bytes -> bool, cur: Cursor) returns (r: Option<Bytes>)
    requires cur.Valid()
    modifies cur
    ensures cur.Valid()
    ensures r.Some? ==> ReadStr(utf8, old(cur.Rest())) == Some((r.value, cur.Rest()))
    ensures r.None? ==> ReadStr(utf8, old(cur.Rest())).None?
  {
    var n := cur.TakeLe(2);
    if n.None? {
      return None;
    }
    r := cur.TakeBytes(n.value);
    if r.Some? && !utf8(r.value) {
      r := None;
    }
  }

  method TakeNames(utf8: Bytes -> bool, cur: Cursor) returns (r: Option<(nat, Bytes, Bytes)>)
    requires cur.Valid()
    modifies cur
    ensures cur.Valid()
    ensures r.Some? ==> ReadNames(utf8, old(cur.Rest())) == Some((r.value, cur.Rest()))
    ensures r.None? ==> ReadNames(utf8, old(cur.Rest())).None?
  {
    var lastSeen := cur.TakeLe(8);
    if lastSeen.None? {
      return None;
    }
    var agent := TakeStr(utf8, cur);
    if agent.None? {
      return None;
    }
    var node := TakeStr(utf8, cur);
    r := if node.None? then None else Some((lastSeen.value, agent.value, node.value));
  }

  method TakeFeature(cur: Cursor) returns (r: Option<Feature>)
    requires cur.Valid()
    modifies cur
    ensures cur.Valid()
    ensures r.Some? ==> ReadFeature(old(cur.Rest())) == Some((r.value, cur.Rest()))
    ensures r.None? ==> ReadFeature(old(cur.Rest())).None?
  {
    var id := cur.TakeByte();
    if id.None? {
      return None;
    }
    var n := cur.TakeLe(2);
    if n.None? {
      return None;
    }
    var body := cur.TakeBytes(n.value);
    r := if body.None? then None else Some((id.value, body.value));
  }

  method TakeFeatures(cur: Cursor, count: nat) returns (r: Option<seq<Feature>>)
    requires cur.Valid()
    modifies cur
    ensures cur.Valid()
    ensures r.Some? ==> ReadAll(ReadFeature, old(cur.Rest()), count) == Some((r.value, cur.Rest()))
    ensures r.None? ==> ReadAll(ReadFeature, old(cur.Rest()), count).None?
  {
    var fs := [];
    ghost var start := cur.Rest();
    for i := 0 to count
      invariant cur.Valid() && ReadAll(ReadFeature, start, i) == Some((fs, cur.Rest()))
    {
      ReadAllStep(ReadFeature, start, i, fs, cur.Rest());
      var f := TakeFeature(cur);
      if f.None? {
        ReadAllStuck(ReadFeature, start, i + 1, count);
        return None;
      }
      fs := fs + [f.value];
    }
    r := Some(fs);
  }

  method TakeMarks(cur: Cursor) returns (r: Option<((Byte, Byte, Byte), Byte)>)
    requires cur.Valid()
    modifies cur
    ensures cur.Valid()
    ensures var v := ReadVersion(old(cur.Rest()));
            if v.Some? && ReadByte(v.value.1).Some?
            then r == Some((v.value.0, ReadByte(v.value.1).value.0)) && cur.Rest() == ReadByte(v.value.1).value.1
            else r.None?
  {
    var v := cur.TakeBytes(3);
    if v.None? {
      return None;
    }
    var count := cur.TakeByte();
    r := if count.None? then None else Some(((v.value[0], v.value[1], v.value[2]), count.value));
  }

  /** The row as the cursor walks through it. */
  method DecodeRecord(utf8: Bytes -> bool, bytes: Bytes) returns (r: Option<PeerRecord>)
    ensures r == Decode(utf8, bytes)
  {
    var cur := new Cursor(bytes);
    r := TakeLegacy(utf8, cur);
    if r.Some? {
      var handshake := TakeHandshake(cur);
      r := if handshake.None? then None else Some(r.value.(lastHandshake := handshake.value));
    }
  }

  method TakeLegacy(utf8: Bytes -> bool, cur: Cursor) returns (r: Option<PeerRecord>)
    requires cur.Valid()
    modifies cur
    ensures cur.Valid()
    ensures r.Some? ==> ReadLegacy(utf8, old(cur.Rest())) == Some((r.value, cur.Rest())) && r.value.lastHandshake == 0
    ensures r.None? ==> ReadLegacy(utf8, old(cur.Rest())).None?
  {
    var names := TakeNames(utf8, cur);
    if names.None? {
      return None;
    }
    var marks := TakeMarks(cur);
    if marks.None? {
      return None;
    }
    var features := TakeFeatures(cur, marks.value.1);
    r := if features.None? then None
         else Some(PeerRecord(names.value.0, 0, names.value.1, names.value.2, marks.value.0, features.value));
  }

  method TakeHandshake(cur: Cursor) returns (r: Option<nat>)
    requires cur.Valid()
    modifies cur
    ensures var rest := old(cur.Rest());
            r == if rest == [] then Some(0) else if ReadLe(rest, 8).Some? then Some(ReadLe(rest, 8).value.0) else None
  {
    if cur.pos == |cur.buf| {
      return Some(0);
    }
    r := cur.TakeLe(8);
  }

  // ---- Round trip ----

  /** Within the limits of the format. */
  ghost predicate Storable(utf8: Bytes -> bool, r: PeerRecord) {
    && r.lastSeen < Power(256, 8) && r.lastHandshake < Power(256, 8)
    && |r.agent| < U16 && utf8(r.agent) && |r.node| < U16 && utf8(r.node)
    && |r.features| <= 255
    && forall i {:trigger r.features[i]} :: 0 <= i < |r.features| ==> |r.features[i].1| < U16
  }

  lemma BytesRoundTrip(b: Bytes, rest: Bytes)
    requires |b| < U16
    ensures ReadBytes(EncodeBytes(b) + rest) == Some((b, rest))
  {
    assert Power(256, 2) == 256 * Power(256, 1) == U16;
    assert EncodeBytes(b) + rest == Le(|b|, 2) + (b + rest);
    ReadLeWritten(|b|, 2, b + rest);
    assert (b + rest)[..|b|] == b && (b + rest)[|b|..] == rest;
  }

  lemma FeatureRoundTrip(f: Feature)
    requires |f.1| < U16
    ensures Undoes(EncodeFeature, ReadFeature, f)
  {
    forall rest: Bytes
      ensures ReadFeature(EncodeFeature(f) + rest) == Some((f, rest))
    {
      assert (EncodeFeature(f) + rest)[1..] == EncodeBytes(f.1) + rest;
      BytesRoundTrip(f.1, rest);
    }
  }

  lemma FeaturesRoundTrip(fs: seq<Feature>, rest: Bytes)
    requires forall i {:trigger fs[i]} :: 0 <= i < |fs| ==> |fs[i].1| < U16
    ensures ReadAll(ReadFeature, WriteAll(EncodeFeature, fs) + rest, |fs|) == Some((fs, rest))
  {
    forall i | 0 <= i < |fs|
      ensures Undoes(EncodeFeature, ReadFeature, fs[i])
    {
      FeatureRoundTrip(fs[i]);
    }
    ReadAllWritten(EncodeFeature, ReadFeature, fs, rest);
  }

  lemma VersionRoundTrip(v: (Byte, Byte, Byte), count: Byte, rest: Bytes)
    ensures ReadVersion([v.0, v.1, v.2, count] + rest) == Some((v, [count] + rest))
    ensures ReadByte([count] + rest) == Some((count, rest))
  {
    var all := [v.0, v.1, v.2, count] + rest;
    assert all[3..] == [count] + rest && all[..3] == [v.0, v.1, v.2];
    assert ([count] + rest)[1..] == rest;
  }

  lemma LegacyRoundTrip(utf8: Bytes -> bool, r: PeerRecord, rest: Bytes)
    requires Storable(utf8, r)
    ensures ReadLegacy(utf8, EncodeLegacy(r) + rest) == Some((r.(lastHandshake := 0), rest))
  {
    HeadRoundTrip(utf8, r, WriteAll(EncodeFeature, r.features) + rest);
    Assoc(EncodeHead(r), WriteAll(EncodeFeature, r.features), rest);
    FeaturesRoundTrip(r.features, rest);
  }

  /** The fields before the features, one after the other. */
  lemma HeadRoundTrip(utf8: Bytes -> bool, r: PeerRecord, b5: Bytes)
    requires Storable(utf8, r)
    ensures ReadLegacy(utf8, EncodeHead(r) + b5) ==
            match ReadAll(ReadFeature, b5, |r.features|)
            case None => None
            case Some((features, rest)) => Some((r.(lastHandshake := 0, features := features), rest))
  {
    var names := Le(r.lastSeen, 8) + EncodeBytes(r.agent) + EncodeBytes(r.node);
    var marks := [r.version.0, r.version.1, r.version.2, |r.features|];
    Assoc(names, marks, b5);
    NamesRoundTrip(utf8, r, marks + b5);
    VersionRoundTrip(r.version, |r.features|, b5);
  }

  lemma NamesRoundTrip(utf8: Bytes -> bool, r: PeerRecord, b3: Bytes)
    requires Storable(utf8, r)
    ensures ReadNames(utf8, Le(r.lastSeen, 8) + EncodeBytes(r.agent) + EncodeBytes(r.node) + b3)
         == Some(((r.lastSeen, r.agent, r.node), b3))
  {
    var b2 := EncodeBytes(r.node) + b3;
    Assoc(Le(r.lastSeen, 8) + EncodeBytes(r.agent), EncodeBytes(r.node), b3);
    Assoc(Le(r.lastSeen, 8), EncodeBytes(r.agent), b2);
    ReadLeWritten(r.lastSeen, 8, EncodeBytes(r.agent) + b2);
    BytesRoundTrip(r.agent, b2);
    BytesRoundTrip(r.node, b3);
  }

  /** A record within its limits reads back as itself; without the last field, as hearsay. */
  lemma RoundTrip(utf8: Bytes -> bool, r: PeerRecord)
    requires Storable(utf8, r)
    ensures Decode(utf8, Encode(r)) == Some(r)
    ensures Decode(utf8, EncodeLegacy(r)) == Some(r.(lastHandshake := 0))
  {
    LegacyRoundTrip(utf8, r, Le(r.lastHandshake, 8));
    LegacyRoundTrip(utf8, r, []);
    assert EncodeLegacy(r) + [] == EncodeLegacy(r);
    ReadLeWritten(r.lastHandshake, 8, []);
    assert Le(r.lastHandshake, 8) + [] == Le(r.lastHandshake, 8);
  }

  function First<T>(s: seq<T>, n: nat): seq<T> {
    if |s| <= n then s else s[..n]
  }

  /** What the format has room for: 65535 bytes of each name and of each feature, and 255 features. */
  function Trimmed(r: PeerRecord): PeerRecord {
    r.(agent := First(r.agent, 65535), node := First(r.node, 65535), features := TrimmedFeatures(First(r.features, 255)))
  }

  function TrimmedFeatures(fs: seq<Feature>): (r: seq<Feature>)
    ensures |r| == |fs| && forall i :: 0 <= i < |fs| ==> r[i] == (fs[i].0, First(fs[i].1, 65535))
  {
    seq(|fs|, i requires 0 <= i < |fs| => (fs[i].0, First(fs[i].1, 65535)))
  }

  lemma {:induction false} FeaturesTrim(fs: seq<Feature>)
    ensures WriteAll(EncodeFeature, TrimmedFeatures(fs)) == WriteAll(EncodeFeature, fs)
  {
    if fs != [] {
      var n := |fs| - 1;
      FeaturesTrim(fs[..n]);
      assert TrimmedFeatures(fs)[..n] == TrimmedFeatures(fs[..n]);
      assert EncodeFeature(TrimmedFeatures(fs)[n]) == EncodeFeature(fs[n]);
    }
  }

  /** Any record reads back as what the format has room for, as long as its names are still text. */
  lemma AnyRoundTrip(utf8: Bytes -> bool, r: PeerRecord)
    requires r.lastSeen < Power(256, 8) && r.lastHandshake < Power(256, 8)
    requires utf8(Trimmed(r).agent) && utf8(Trimmed(r).node)
    ensures Decode(utf8, Encode(r)) == Some(Trimmed(r))
  {
    var t := Trimmed(r);
    FeaturesTrim(First(r.features, 255));
    assert Kept(t.features) == t.features && Kept(r.features) == First(r.features, 255);
    assert EncodeHead(t) == EncodeHead(r);
    RoundTrip(utf8, t);
  }

  lemma RowExample()
    ensures Encode(PeerRecord(1, 2, [65], [66, 67], (5, 6, 7), [(9, [10])]))
         == [1, 0, 0, 0, 0, 0, 0, 0] + [1, 0, 65] + [2, 0, 66, 67] + [5, 6, 7] + [1] + [9, 1, 0, 10] + [2, 0, 0, 0, 0, 0, 0, 0]
  {
    var r := PeerRecord(1, 2, [65], [66, 67], (5, 6, 7), [(9, [10])]);
    LeExample(1);
    LeExample(2);
    ShortExamples();
    Assoc(EncodeHead(r), [9, 1, 0, 10], Le(2, 8));
  }

  lemma ShortExamples()
    ensures EncodeBytes([65]) == [1, 0, 65] && EncodeBytes([66, 67]) == [2, 0, 66, 67]
    ensures WriteAll(EncodeFeature, [(9, [10])]) == [9, 1, 0, 10]
  {
    assert Le(1, 2) == [1, 0] && Le(2, 2) == [2, 0];
    assert EncodeFeature((9, [10])) == [9, 1, 0, 10];
    assert [(9 as Byte, [10 as Byte])][..0] == [];
  }

  lemma LeExample(n: Byte)
    ensures Le(n, 8) == [n, 0, 0, 0, 0, 0, 0, 0]
  {
    assert Le(0, 3) == [0, 0, 0] && Le(0, 5) == [0, 0] + Le(0, 3) && Le(0, 7) == [0, 0] + Le(0, 5);
  }

  // ---- Truncated rows ----

  lemma ReadBytesMore(bs: Bytes, more: Bytes)
    requires ReadBytes(bs).Some?
    ensures ReadBytes(bs + more) == Some((ReadBytes(bs).value.0, ReadBytes(bs).value.1 + more))
  {
    ReadLeMore(bs, 2, more);
    TakeMore(ReadLe(bs, 2).value.1, ReadLe(bs, 2).value.0, more);
  }

  lemma ReadFeatureMore(bs: Bytes, more: Bytes)
    ensures LocalAt(ReadFeature, bs, more)
  {
    if ReadFeature(bs).Some? {
      ReadByteMore(bs, more);
      ReadBytesMore(ReadByte(bs).value.1, more);
    }
  }

  lemma ReadFeaturesMore(bs: Bytes, count: nat, more: Bytes)
    requires ReadAll(ReadFeature, bs, count).Some?
    ensures var r := ReadAll(ReadFeature, bs, count).value; ReadAll(ReadFeature, bs + more, count) == Some((r.0, r.1 + more))
  {
    forall b: Bytes
      ensures LocalAt(ReadFeature, b, more)
    {
      ReadFeatureMore(b, more);
    }
    assert Local(ReadFeature, more);
    ReadAllMore(ReadFeature, bs, count, more);
  }

  lemma ReadNamesMore(utf8: Bytes -> bool, bs: Bytes, more: Bytes)
    requires ReadNames(utf8, bs).Some?
    ensures ReadNames(utf8, bs + more) == Some((ReadNames(utf8, bs).value.0, ReadNames(utf8, bs).value.1 + more))
  {
    ReadLeMore(bs, 8, more);
    var b1 := ReadLe(bs, 8).value.1;
    ReadBytesMore(b1, more);
    ReadBytesMore(ReadStr(utf8, b1).value.1, more);
  }

  /** What is read does not depend on what follows. */
  lemma ReadLegacyMore(utf8: Bytes -> bool, bs: Bytes, more: Bytes)
    requires ReadLegacy(utf8, bs).Some?
    ensures ReadLegacy(utf8, bs + more) == Some((ReadLegacy(utf8, bs).value.0, ReadLegacy(utf8, bs).value.1 + more))
  {
    ReadNamesMore(utf8, bs, more);
    var b3 := ReadNames(utf8, bs).value.1;
    TakeMore(b3, 3, more);
    var b4 := ReadVersion(b3).value.1;
    ReadByteMore(b4, more);
    ReadFeaturesMore(ReadByte(b4).value.1, ReadByte(b4).value.0, more);
  }

  /** Of a truncated row, only the one that stops where older rows did can be read. */
  lemma OnlyLegacyPrefixReads(utf8: Bytes -> bool, r: PeerRecord, k: nat)
    requires Storable(utf8, r) && k < |Encode(r)|
    ensures Decode(utf8, Encode(r)[..k]).Some? <==> k == |Encode(r)| - 8
  {
    var legacy := EncodeLegacy(r);
    if k < |legacy| {
      assert Encode(r)[..k] == legacy[..k];
      ShortRowFails(utf8, r, k);
    } else {
      var tail := Le(r.lastHandshake, 8)[..k - |legacy|];
      assert Encode(r)[..k] == legacy + tail;
      LegacyRoundTrip(utf8, r, tail);
    }
  }

  lemma ShortRowFails(utf8: Bytes -> bool, r: PeerRecord, k: nat)
    requires Storable(utf8, r) && k < |EncodeLegacy(r)|
    ensures ReadLegacy(utf8, EncodeLegacy(r)[..k]).None?
  {
    var legacy := EncodeLegacy(r);
    var read := bs => ReadLegacy(utf8, bs);
    assert read(legacy) == Some((r.(lastHandshake := 0), [])) by {
      assert legacy + [] == legacy;
      LegacyRoundTrip(utf8, r, []);
    }
    assert LocalAt(read, legacy[..k], legacy[k..]) by {
      if ReadLegacy(utf8, legacy[..k]).Some? {
        ReadLegacyMore(utf8, legacy[..k], legacy[k..]);
      }
    }
    PrefixFails(read, legacy, k);
  }
}
