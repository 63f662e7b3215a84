/**
 The bytes of a transferred c_txn: a header with id and record count, the records, and a
 COMMIT mark on the last c_txn of a group.  META_SET and UPDATE records occupy a full
 page whatever their value length.
 */
module Wire {
  import opened Bytes
  import opened TxnTypes

  const STRIDE: nat := 4096

  function Code(ty: ReqType): Byte {
    match ty
    case MetaGet => 0 case MetaSet => 1 case MetaSyncSet => 2 case MetaDel => 3 case MetaCursor => 4
    case MetaUpdate => 5 case MetaRename => 6 case DataGet => 7 case DataSet => 8 case DataSeqSet => 9
    case DataDel => 10 case DataDelMulti => 11 case DataCursor => 12 case DataUpdate => 13 case DataRename => 14
    case Commit => 15 case GetMulti => 16 case DataSetWb => 17 case GetMultiReal => 18 case DelMultiReal => 19
    case TxnTransfer => 20 case GetMultiReada => 21 case GetMultiReadaReal => 22
  }

  predicate IsPut(ty: ReqType) { ty.DataSet? || ty.DataSeqSet? || ty.DataSetWb? }

  predicate IsDel(ty: ReqType) { ty.MetaDel? || ty.DataDel? }

  predicate IsUpdate(ty: ReqType) { ty.MetaUpdate? || ty.DataUpdate? }

  /** The types the encoder has a case for. */
  predicate Encodable(ty: ReqType) {
    ty.MetaSet? || IsPut(ty) || IsDel(ty) || IsUpdate(ty) || ty.DataDelMulti?
  }

  /** A write-back page goes out as a plain DATA_SET. */
  function SentAs(ty: ReqType): ReqType { if ty.DataSetWb? then DataSet else ty }

  /** A record as the inserts build it: 16-bit fields in range and a buffer of the size the encoder copies. */
  ghost predicate WellFormed(b: TxnBuf) {
    && Encodable(b.ty) && |b.key| < U16 && b.off < U16 && b.update < U16
    && (b.ty.MetaSet? ==> |b.data| == INODE_SIZE && b.len == PAGE_SIZE)
    && (IsPut(b.ty) || IsUpdate(b.ty) ==> |b.data| == PAGE_SIZE && b.len == PAGE_SIZE)
  }

  function U16Bytes(x: nat): seq<Byte> { [x % 256, x / 256 % 256] }

  function U32Bytes(x: nat): seq<Byte> { [x % 256, x / 256 % 256, x / 0x1_0000 % 256, x / 0x100_0000 % 256] }

  function Head(b: TxnBuf): seq<Byte> {
    [Code(SentAs(b.ty))] + U16Bytes(|b.key|) + b.key
  }

  /** The bytes of a record that carry meaning, in order. */
  function Meaning(b: TxnBuf): seq<Byte> {
    if b.ty.MetaSet? then Head(b) + U16Bytes(b.off) + U16Bytes(INODE_SIZE) + b.data
    else if IsPut(b.ty) then Head(b) + U16Bytes(b.off) + U16Bytes(b.len) + b.data
    else if IsUpdate(b.ty) then Head(b) + U16Bytes(b.off) + U16Bytes(b.update) + b.data
    else if b.ty.DataDelMulti? then Head(b) + U16Bytes(b.off)
    else Head(b)
  }

  /** How far a record advances the buffer index. */
  function Extent(b: TxnBuf): nat {
    if b.ty.MetaSet? || IsUpdate(b.ty) then 7 + |b.key| + STRIDE
    else if IsPut(b.ty) then 7 + |b.key| + b.len
    else if b.ty.DataDelMulti? then 5 + |b.key|
    else 3 + |b.key|
  }

  function Extents(bs: seq<TxnBuf>): nat {
    if bs == [] then 0 else Extent(bs[0]) + Extents(bs[1..])
  }

  /** `w` is an encoding of `b`; what lies between its meaning and its extent is left over from earlier use. */
  ghost predicate Encodes(w: seq<Byte>, b: TxnBuf) {
    |w| == Extent(b) && Meaning(b) <= w
  }

  ghost predicate EncodesAll(w: seq<Byte>, bs: seq<TxnBuf>) {
    if bs == [] then w == []
    else Extent(bs[0]) <= |w| && Encodes(w[..Extent(bs[0])], bs[0]) && EncodesAll(w[Extent(bs[0])..], bs[1..])
  }

  function Bufs(ts: seq<Txn>): seq<TxnBuf> {
    if ts == [] then [] else Bufs(ts[..|ts| - 1]) + ts[|ts| - 1].bufs
  }

  predicate Marked(c: CTxn) { c.flush || c.ordered }

  function EncodedLen(c: CTxn): nat {
    6 + Extents(Bufs(c.txns)) + if Marked(c) then 1 else 0
  }

  /**
   `w` is what the device finds in the slot for `c`.  The encoder stops when its 16-bit count
   comes round to 0, so besides the mark a slot holds less than 2^16 records.
   */
  ghost predicate Transferred(w: seq<Byte>, c: CTxn) {
    var bs := Bufs(c.txns);
    var end := 6 + Extents(bs);
    && |bs| < U16
    && |w| == EncodedLen(c)
    && w[..4] == U32Bytes(c.id)
    && w[4..6] == U16Bytes(|bs| + if Marked(c) then 1 else 0)
    && EncodesAll(w[6..end], bs)
    && (Marked(c) ==> w[end] == Code(ReqType.Commit))
  }

  // ---------------------------------------------------------------------------------
  // A decoder that knows only the record layouts.
  // ---------------------------------------------------------------------------------

  datatype Record =
    | Put(ty: ReqType, key: seq<Byte>, off: nat, value: seq<Byte>)
    | Update(ty: ReqType, key: seq<Byte>, off: nat, len: nat, page: seq<Byte>)
    | Del(ty: ReqType, key: seq<Byte>)
    | DelMulti(key: seq<Byte>, cnt: nat)
    | CommitMark

  datatype Decoded = Decoded(id: nat, cnt: nat, records: seq<Record>)

  function U16At(w: seq<Byte>, at: nat): nat
    requires at + 2 <= |w|
  {
    (w[at] as nat) + 256 * (w[at + 1] as nat)
  }

  function U32At(w: seq<Byte>, at: nat): nat
    requires at + 4 <= |w|
  {
    (w[at] as nat) + 256 * (w[at + 1] as nat) + 0x1_0000 * (w[at + 2] as nat) + 0x100_0000 * (w[at + 3] as nat)
  }

  /** The first record of `w` and the number of bytes it takes. */
  function DecodeRecord(w: seq<Byte>): Option<(Record, nat)> {
    if |w| == 0 then None
    else if w[0] == 15 then Some((CommitMark, 1))
    else if |w| < 3 then None
    else
      var code := w[0];
      var at := 3 + U16At(w, 1);
      if |w| < at then None
      else
        var key := w[3..at];
        if code == 3 || code == 10 then Some((Del(if code == 3 then MetaDel else DataDel, key), at))
        else if |w| < at + 2 then None
        else if code == 11 then Some((DelMulti(key, U16At(w, at)), at + 2))
        else if |w| < at + 4 then None
        else
          var off, len := U16At(w, at), U16At(w, at + 2);
          if code == 8 || code == 9 then
            if |w| < at + 4 + len then None
            else Some((Put(if code == 8 then DataSet else DataSeqSet, key, off, w[at + 4..at + 4 + len]), at + 4 + len))
          else if |w| < at + 4 + STRIDE then None
          else if code == 1 && len <= STRIDE then Some((Put(MetaSet, key, off, w[at + 4..at + 4 + len]), at + 4 + STRIDE))
          else if code == 5 || code == 13 then
            var ty := if code == 5 then MetaUpdate else DataUpdate;
            Some((Update(ty, key, off, len, w[at + 4..at + 4 + STRIDE]), at + 4 + STRIDE))
          else None
  }

  function DecodeRecords(w: seq<Byte>, n: nat): Option<seq<Record>>
    decreases n
  {
    if n == 0 then Some([])
    else
      match DecodeRecord(w)
      case None => None
      case Some((r, used)) =>
        if used > |w| then None
        else
          match DecodeRecords(w[used..], n - 1)
          case None => None
          case Some(rs) => Some([r] + rs)
  }

  function Decode(w: seq<Byte>): Option<Decoded> {
    if |w| < 6 then None
    else
      match DecodeRecords(w[6..], U16At(w, 4))
      case None => None
      case Some(rs) => Some(Decoded(U32At(w, 0), U16At(w, 4), rs))
  }

  /** What a record means to the device: the type it was inserted with, but a write-back page is a plain set. */
  function Meant(b: TxnBuf): Record {
    match b.ty
    case MetaSet => Put(MetaSet, b.key, b.off, b.data)
    case DataSet => Put(DataSet, b.key, b.off, b.data)
    case DataSetWb => Put(DataSet, b.key, b.off, b.data)
    case DataSeqSet => Put(DataSeqSet, b.key, b.off, b.data)
    case MetaUpdate => Update(MetaUpdate, b.key, b.off, b.update, b.data)
    case DataUpdate => Update(DataUpdate, b.key, b.off, b.update, b.data)
    case DataDelMulti => DelMulti(b.key, b.off)
    case ty => Del(ty, b.key)
  }

  function MeantAll(bs: seq<TxnBuf>): seq<Record> {
    seq(|bs|, i requires 0 <= i < |bs| => Meant(bs[i]))
  }

  lemma U16RoundTrip(x: nat)
    requires x < U16
    ensures |U16Bytes(x)| == 2 && U16At(U16Bytes(x), 0) == x
  {}

  lemma U32RoundTrip(x: nat)
    requires x < U32
    ensures |U32Bytes(x)| == 4 && U32At(U32Bytes(x), 0) == x
  {
    assert x / 0x100_0000 < 256;
    assert x == x % 256 + 256 * (x / 256);
    assert x / 256 == x / 256 % 256 + 256 * (x / 0x1_0000);
    assert x / 0x1_0000 == x / 0x1_0000 % 256 + 256 * (x / 0x100_0000);
  }

  /** A 16-bit field at a known place of a byte string. */
  lemma FieldAt(w: seq<Byte>, at: nat, x: nat)
    requires at + 2 <= |w| && x < U16 && w[at..at + 2] == U16Bytes(x)
    ensures U16At(w, at) == x
  {
    U16RoundTrip(x);
    assert w[at] == w[at..at + 2][0] && w[at + 1] == w[at..at + 2][1];
  }

  lemma HeadFields(s: seq<Byte>, b: TxnBuf)
    requires |b.key| < U16 && Head(b) <= s
    ensures |s| >= 3 + |b.key| && s[0] == Code(SentAs(b.ty)) && U16At(s, 1) == |b.key| && s[3..3 + |b.key|] == b.key
  {
    var h := Head(b);
    assert s[1..3] == h[1..3] == U16Bytes(|b.key|);
    FieldAt(s, 1, |b.key|);
    assert s[3..3 + |b.key|] == h[3..] == b.key;
  }

  lemma ValueFields(s: seq<Byte>, head: seq<Byte>, off: nat, len: nat, data: seq<Byte>)
    requires off < U16 && len < U16
    requires head + U16Bytes(off) + U16Bytes(len) + data <= s
    ensures var at := |head|;
            |s| >= at + 4 + |data| && U16At(s, at) == off && U16At(s, at + 2) == len && s[at + 4..at + 4 + |data|] == data
  {
    var m := head + U16Bytes(off) + U16Bytes(len) + data;
    var at := |head|;
    assert s[at..at + 2] == m[at..at + 2] == U16Bytes(off);
    assert s[at + 2..at + 4] == m[at + 2..at + 4] == U16Bytes(len);
    FieldAt(s, at, off);
    FieldAt(s, at + 2, len);
    assert s[at + 4..at + 4 + |data|] == m[at + 4..] == data;
  }

  /** The request types in the order of the enumeration; the type byte is the position in it. */
  const REQ_TYPES: seq<ReqType> := [
    MetaGet, MetaSet, MetaSyncSet, MetaDel, MetaCursor, MetaUpdate, MetaRename,
    DataGet, DataSet, DataSeqSet, DataDel, DataDelMulti, DataCursor, DataUpdate, DataRename,
    Commit, GetMulti, DataSetWb, GetMultiReal, DelMultiReal, TxnTransfer, GetMultiReada, GetMultiReadaReal]

  lemma CodeIsPosition(ty: ReqType)
    ensures Code(ty) as nat < |REQ_TYPES| && REQ_TYPES[Code(ty)] == ty
  {}

  lemma TypeByteIsPosition(w: seq<Byte>, b: TxnBuf)
    requires WellFormed(b) && Encodes(w, b)
    ensures |w| > 0 && w[0] as nat < |REQ_TYPES| && REQ_TYPES[w[0]] == if b.ty == DataSetWb then DataSet else b.ty
  {
    hide Code, REQ_TYPES;
    assert Meaning(b)[0] == Code(SentAs(b.ty));
    CodeIsPosition(SentAs(b.ty));
  }

  /**
   One record decodes to the type, key, offset, length and bytes it was built with, whatever
   follows it and whatever fills its stride; a write-back page decodes as a plain set.
   */
  lemma RecordRoundTrip(w: seq<Byte>, b: TxnBuf, rest: seq<Byte>)
    requires WellFormed(b) && Encodes(w, b)
    ensures DecodeRecord(w + rest) == Some((Meant(b), Extent(b)))
    ensures |w| == Extent(b)
    ensures var r := Meant(b);
            && r.key == b.key
            && (r.Put? || r.Update? || r.Del? ==> r.ty == if b.ty == DataSetWb then DataSet else b.ty)
            && (r.Put? <==> b.ty in {MetaSet, DataSet, DataSetWb, DataSeqSet})
            && (r.Put? ==> r.off == b.off && r.value == b.data)
            && (r.Update? <==> b.ty in {MetaUpdate, DataUpdate})
            && (r.Update? ==> r.off == b.off && r.len == b.update && r.page == b.data)
            && (r.Del? <==> b.ty in {MetaDel, DataDel})
            && (r.DelMulti? <==> b.ty == DataDelMulti) && (r.DelMulti? ==> r.cnt == b.off)
  {
    hide *;
    DecodesToMeant(w, b, rest);
    MeantKeeps(b);
  }

  lemma MeantKeeps(b: TxnBuf)
    requires Encodable(b.ty)
    ensures var r := Meant(b);
            && r.key == b.key
            && (r.Put? || r.Update? || r.Del? ==> r.ty == if b.ty == DataSetWb then DataSet else b.ty)
            && (r.Put? <==> b.ty in {MetaSet, DataSet, DataSetWb, DataSeqSet})
            && (r.Put? ==> r.off == b.off && r.value == b.data)
            && (r.Update? <==> b.ty in {MetaUpdate, DataUpdate})
            && (r.Update? ==> r.off == b.off && r.len == b.update && r.page == b.data)
            && (r.Del? <==> b.ty in {MetaDel, DataDel})
            && (r.DelMulti? <==> b.ty == DataDelMulti) && (r.DelMulti? ==> r.cnt == b.off)
  {}

  lemma DecodesToMeant(w: seq<Byte>, b: TxnBuf, rest: seq<Byte>)
    requires WellFormed(b) && Encodes(w, b)
    ensures DecodeRecord(w + rest) == Some((Meant(b), Extent(b))) && |w| == Extent(b) && Encodable(b.ty)
  {
    var s := w + rest;
    var m := Meaning(b);
    assert m <= s;
    assert |Head(b)| == 3 + |b.key|;
    assert Head(b) <= s by { assert Head(b) == m[..3 + |b.key|]; }
    HeadFields(s, b);
    hide Head, U16At, U16Bytes;
    if b.ty.DataDelMulti? {
      assert s[3 + |b.key|..5 + |b.key|] == m[3 + |b.key|..] == U16Bytes(b.off);
      FieldAt(s, 3 + |b.key|, b.off);
    } else if !IsDel(b.ty) {
      ValueFields(s, Head(b), b.off, if b.ty.MetaSet? then INODE_SIZE else if IsPut(b.ty) then b.len else b.update, b.data);
    }
  }

  lemma {:induction false} RecordsRoundTrip(w: seq<Byte>, bs: seq<TxnBuf>, rest: seq<Byte>, more: nat)
    requires EncodesAll(w, bs) && forall b :: b in bs ==> WellFormed(b)
    ensures var tail := DecodeRecords(rest, more);
            DecodeRecords(w + rest, |bs| + more) == if tail.None? then None else Some(MeantAll(bs) + tail.value)
    decreases |bs|
  {
    hide DecodeRecord, Encodes, Meant, Extent, WellFormed;
    var tail := DecodeRecords(rest, more);
    if bs == [] {
      assert w + rest == rest;
      if tail.Some? {
        assert MeantAll(bs) + tail.value == tail.value;
      }
    } else {
      var b, n := bs[0], Extent(bs[0]);
      RecordRoundTrip(w[..n], b, w[n..] + rest);
      RecordsRoundTrip(w[n..], bs[1..], rest, more);
      assert w[..n] + (w[n..] + rest) == w + rest;
      assert (w + rest)[n..] == w[n..] + rest;
      assert MeantAll(bs) == [Meant(b)] + MeantAll(bs[1..]);
      if tail.Some? {
        assert [Meant(b)] + (MeantAll(bs[1..]) + tail.value) == MeantAll(bs) + tail.value;
      }
    }
  }

  lemma {:induction false} PrefixRoundTrip(w: seq<Byte>, bs: seq<TxnBuf>, rest: seq<Byte>, n: nat)
    requires EncodesAll(w, bs) && forall b :: b in bs ==> WellFormed(b)
    requires n <= |bs|
    ensures DecodeRecords(w + rest, n) == Some(MeantAll(bs)[..n])
    decreases n
  {
    hide DecodeRecord, Encodes, Meant, Extent, WellFormed;
    if n > 0 {
      var b, e := bs[0], Extent(bs[0]);
      RecordRoundTrip(w[..e], b, w[e..] + rest);
      PrefixRoundTrip(w[e..], bs[1..], rest, n - 1);
      assert w[..e] + (w[e..] + rest) == w + rest;
      assert (w + rest)[e..] == w[e..] + rest;
      assert MeantAll(bs) == [Meant(b)] + MeantAll(bs[1..]);
      assert MeantAll(bs)[..n] == [Meant(b)] + MeantAll(bs[1..])[..n - 1];
    }
  }

  function AllRecords(c: CTxn): seq<Record> {
    MeantAll(Bufs(c.txns)) + if Marked(c) then [CommitMark] else []
  }

  /** The one slot whose count is wrong: the mark is its 65536th record. */
  predicate CountWraps(c: CTxn) { |Bufs(c.txns)| == U16 - 1 && Marked(c) }

  /**
   The device recovers the id and all the records from the slot, with the COMMIT mark, unless
   the mark wraps the count; then it recovers nothing at all.
   */
  lemma TransferRoundTrip(w: seq<Byte>, c: CTxn)
    requires Transferred(w, c) && c.id < U32
    requires forall b :: b in Bufs(c.txns) ==> WellFormed(b)
    ensures Decode(w) == Some(if CountWraps(c) then Decoded(c.id, 0, []) else Decoded(c.id, |AllRecords(c)|, AllRecords(c)))
    ensures Decode(w) == Some(Decoded(c.id, |AllRecords(c)|, AllRecords(c))) <==> !CountWraps(c)
  {
    hide U16Bytes, U32Bytes, U16At, U32At, Bufs, WellFormed, Extents, DecodeRecords, EncodesAll, Meant, Code;
    var bs := Bufs(c.txns);
    var end := 6 + Extents(bs);
    var n := |AllRecords(c)| % U16;
    HeaderRoundTrip(w, c.id, |AllRecords(c)|);
    assert w[6..] == w[6..end] + w[end..];
    if n <= |bs| {
      PrefixRoundTrip(w[6..end], bs, w[end..], n);
      assert MeantAll(bs)[..n] == if CountWraps(c) then [] else AllRecords(c);
    } else {
      MarkRoundTrip(w[end..]);
      RecordsRoundTrip(w[6..end], bs, w[end..], 1);
    }
  }

  // Every c_txn the encoder does not stop at has a slot.

  function Filler(n: nat): seq<Byte> { seq(n, _ => 0) }

  function EncodeRecord(b: TxnBuf): seq<Byte>
    requires |Meaning(b)| <= Extent(b)
  {
    Meaning(b) + Filler(Extent(b) - |Meaning(b)|)
  }

  lemma MeaningFits(b: TxnBuf)
    requires WellFormed(b)
    ensures |Meaning(b)| <= Extent(b)
  {}

  lemma {:induction false} RecordsEncode(bs: seq<TxnBuf>) returns (w: seq<Byte>)
    requires forall b :: b in bs ==> WellFormed(b)
    ensures EncodesAll(w, bs) && |w| == Extents(bs)
  {
    hide Meaning, Extent, WellFormed;
    if bs == [] {
      w := [];
    } else {
      MeaningFits(bs[0]);
      var rest := RecordsEncode(bs[1..]);
      w := EncodeRecord(bs[0]) + rest;
      assert w[..Extent(bs[0])] == EncodeRecord(bs[0]) && w[Extent(bs[0])..] == rest;
    }
  }

  lemma SlotExists(c: CTxn) returns (w: seq<Byte>)
    requires |Bufs(c.txns)| < U16 && forall b :: b in Bufs(c.txns) ==> WellFormed(b)
    ensures Transferred(w, c)
  {
    hide WellFormed, Extents, EncodesAll, Bufs;
    var bs := Bufs(c.txns);
    var body := RecordsEncode(bs);
    var head := U32Bytes(c.id) + U16Bytes(|bs| + if Marked(c) then 1 else 0);
    w := head + body + if Marked(c) then [Code(ReqType.Commit)] else [];
    assert w[..4] == U32Bytes(c.id) && w[4..6] == head[4..6];
    assert w[6..6 + Extents(bs)] == body;
  }

  lemma HeaderRoundTrip(w: seq<Byte>, id: nat, cnt: nat)
    requires |w| >= 6 && id < U32 && w[..4] == U32Bytes(id) && w[4..6] == U16Bytes(cnt)
    ensures U32At(w, 0) == id && U16At(w, 4) == cnt % U16
  {
    U32RoundTrip(id);
    assert w[0] == w[..4][0] && w[1] == w[..4][1] && w[2] == w[..4][2] && w[3] == w[..4][3];
    Low16(cnt);
    FieldAt(w, 4, cnt % U16);
  }

  lemma MarkRoundTrip(w: seq<Byte>)
    requires |w| == 1 && w[0] == Code(ReqType.Commit)
    ensures DecodeRecords(w, 1) == Some([CommitMark])
  {
    assert DecodeRecord(w) == Some((CommitMark, 1));
    assert [CommitMark] + [] == [CommitMark];
  }

  lemma Low16(x: nat)
    ensures x % U16 % 256 == x % 256 && x % U16 / 256 % 256 == x / 256 % 256
  {
    var q, r := x / U16, x % U16;
    assert x == 256 * (256 * q) + r;
    assert x / 256 == 256 * q + r / 256;
  }
}
